/** Splitting a validity period where the offset to UTC changes. */
module Daylight {

  // ---------- dates ----------

  predicate IsLeap(year: nat) {
    year % 4 == 0 && (year % 100 != 0 || year % 400 == 0)
  }

  /** The days from the first of January of the year 1 to that of `year`. */
  function FirstDay(year: nat): nat {
    if year <= 1 then 0 else FirstDay(year - 1) + (if IsLeap(year - 1) then 366 else 365)
  }

  lemma {:induction false} YearsAdvance(a: nat, b: nat)
    requires 1 <= a < b
    ensures FirstDay(a) + 365 <= FirstDay(b)
    decreases b
  {
    if a < b - 1 {
      YearsAdvance(a, b - 1);
    }
  }

  /** The Gregorian rule in closed form: a day more every fourth year, but for centuries not divisible by 400. */
  lemma {:induction false} FirstDayIsGregorian(year: nat)
    requires year >= 1
    ensures FirstDay(year) == 365 * (year - 1) + (year - 1) / 4 - (year - 1) / 100 + (year - 1) / 400
  {
    if year > 1 {
      FirstDayIsGregorian(year - 1);
      Fours(year - 1);
      Centuries(year - 1);
      FourCenturies(year - 1);
      LeapCounts(year - 1);
    }
  }

  lemma Fours(y: nat)
    requires y >= 1
    ensures y / 4 == (y - 1) / 4 + (if y % 4 == 0 then 1 else 0)
  {
  }

  lemma Centuries(y: nat)
    requires y >= 1
    ensures y / 100 == (y - 1) / 100 + (if y % 100 == 0 then 1 else 0)
  {
  }

  lemma FourCenturies(y: nat)
    requires y >= 1
    ensures y / 400 == (y - 1) / 400 + (if y % 400 == 0 then 1 else 0)
  {
  }

  lemma LeapCounts(y: nat)
    ensures (if IsLeap(y) then 1 else 0) ==
            (if y % 4 == 0 then 1 else 0) - (if y % 100 == 0 then 1 else 0) + (if y % 400 == 0 then 1 else 0)
  {
    if y % 100 == 0 {
      assert y == 4 * (25 * (y / 100));
    }
    if y % 400 == 0 {
      assert y == 100 * (4 * (y / 400));
    }
  }

  predicate InYear(day: nat, year: nat) {
    year >= 1 && FirstDay(year) <= day < FirstDay(year + 1)
  }

  /** The year of a day, looked for from `year` on. */
  function YearFrom(day: nat, year: nat): (r: nat)
    requires year >= 1 && FirstDay(year) <= day
    ensures InYear(day, r) && r >= year
    decreases day - FirstDay(year)
  {
    if day < FirstDay(year + 1) then year else YearFrom(day, year + 1)
  }

  function YearOf(day: nat): (r: nat)
    ensures InYear(day, r)
  {
    YearFrom(day, 1)
  }

  lemma YearIsUnique(day: nat, a: nat, b: nat)
    requires InYear(day, a) && InYear(day, b)
    ensures a == b
  {
    if a < b {
      YearsAdvance(a, b);
      if a + 1 < b { YearsAdvance(a + 1, b); }
    } else if b < a {
      YearsAdvance(b, a);
      if b + 1 < a { YearsAdvance(b + 1, a); }
    }
  }

  // ---------- periods ----------

  /** From the first day to before the end; it may be empty. */
  datatype Period = Period(first: nat, end: nat)

  predicate Contains(p: Period, day: int) {
    p.first <= day < p.end
  }

  predicate IsNull(p: Period) {
    p.end <= p.first
  }

  predicate Intersects(p: Period, q: Period) {
    Contains(p, q.first) || Contains(q, p.first) || (q.first < p.first && q.end > p.first)
  }

  function Intersection(p: Period, q: Period): Period {
    if p.first > q.first then (if p.end <= q.end then p else Period(p.first, q.end))
    else if p.end < q.end then Period(q.first, p.end)
    else q
  }

  lemma IntersectionIsExact(p: Period, q: Period, day: int)
    ensures Contains(p, day) && Contains(q, day) <==> Intersects(p, q) && Contains(Intersection(p, q), day)
  {
  }

  // ---------- zones ----------

  /** Offsets in seconds; the days of each year on which saving starts and ends. */
  datatype Zone = Zone(base: int, dst: int, hasDst: bool, dstStart: nat -> nat, dstEnd: nat -> nat)

  /** Change dates are dates of their year. */
  ghost predicate ChangesInYear(z: Zone, year: nat) {
    InYear(z.dstStart(year), year) && InYear(z.dstEnd(year), year)
  }

  predicate StartsFirst(z: Zone, year: nat) {
    z.dstStart(year) < z.dstEnd(year)
  }

  function Summer(z: Zone, startsFirst: bool, year: nat): Period {
    if startsFirst then Period(z.dstStart(year), z.dstEnd(year)) else Period(z.dstEnd(year), z.dstStart(year))
  }

  /** Offsets are kept in whole minutes; division is towards zero. */
  function WholeMinutes(seconds: int): int {
    (if seconds >= 0 then seconds / 60 else -(-seconds / 60)) * 60
  }

  /** Whole minutes are kept, and what is cut off is less than a minute and towards zero. */
  lemma WholeMinutesMeans(seconds: int)
    ensures WholeMinutes(seconds) % 60 == 0 && (seconds % 60 == 0 ==> WholeMinutes(seconds) == seconds)
    ensures seconds >= 0 ==> 0 <= seconds - WholeMinutes(seconds) < 60
    ensures seconds <= 0 ==> 0 <= WholeMinutes(seconds) - seconds < 60
  {
  }

  function JanuaryOffset(z: Zone, startsFirst: bool): int {
    WholeMinutes(if startsFirst then z.base else z.base + z.dst)
  }

  function JuneOffset(z: Zone, startsFirst: bool): int {
    WholeMinutes(if startsFirst then z.base + z.dst else z.base)
  }

  /** Whether saving is on, by the dates of the year the day is in. */
  predicate SavingOn(z: Zone, day: nat) {
    var y := YearOf(day);
    if StartsFirst(z, y) then z.dstStart(y) <= day < z.dstEnd(y) else !(z.dstEnd(y) <= day < z.dstStart(y))
  }

  function OffsetOn(z: Zone, day: nat): int {
    WholeMinutes(if SavingOn(z, day) then z.base + z.dst else z.base)
  }

  // ---------- the pieces of some years ----------

  datatype Piece = Piece(period: Period, shift: int)

  /** What lies before the summer of `year`, when `year` is not the first or does not start with saving. */
  function Before(z: Zone, startsFirst: bool, first: nat, year: nat): seq<Piece>
    requires first <= year
  {
    if year > first then
      [Piece(Period(Summer(z, startsFirst, year - 1).end, Summer(z, startsFirst, year).first), JanuaryOffset(z, startsFirst))]
    else if z.dstStart(first) != FirstDay(first) then
      [Piece(Period(FirstDay(first), Summer(z, startsFirst, first).first), JanuaryOffset(z, startsFirst))]
    else []
  }

  function SummerPiece(z: Zone, startsFirst: bool, year: nat): Piece {
    Piece(Summer(z, startsFirst, year), JuneOffset(z, startsFirst))
  }

  /** The pieces up to the last summer before `year`. */
  function Pieces(z: Zone, startsFirst: bool, first: nat, year: nat): (r: seq<Piece>)
    requires first <= year
    ensures r == [] <==> first == year
    ensures r != [] ==> r[|r| - 1] == SummerPiece(z, startsFirst, year - 1)
  {
    if first == year then []
    else Pieces(z, startsFirst, first, year - 1) + Before(z, startsFirst, first, year - 1) + [SummerPiece(z, startsFirst, year - 1)]
  }

  function AllPieces(z: Zone, startsFirst: bool, first: nat, last: nat): seq<Piece>
    requires first <= last
  {
    Pieces(z, startsFirst, first, last + 1)
    + [Piece(Period(Summer(z, startsFirst, last).end, FirstDay(last + 1)), JanuaryOffset(z, startsFirst))]
  }

  /** In how many pieces a day lies. */
  function Count(pieces: seq<Piece>, day: int): nat {
    |Covering(pieces, day)|
  }

  function Covering(pieces: seq<Piece>, day: int): set<int> {
    set i | 0 <= i < |pieces| && Contains(pieces[i].period, day)
  }

  function One(b: bool): nat {
    if b then 1 else 0
  }

  lemma CountNext(pieces: seq<Piece>, p: Piece, day: int)
    ensures Count(pieces + [p], day) == Count(pieces, day) + One(Contains(p.period, day))
  {
    var n := |pieces|;
    var now, next := Covering(pieces, day), Covering(pieces + [p], day);
    assert forall i :: i in now ==> (pieces + [p])[i] == pieces[i];
    if Contains(p.period, day) {
      assert next == now + {n};
    } else {
      assert next == now;
    }
  }

  lemma CountNone(day: int)
    ensures Count([], day) == 0
  {
    assert Covering([], day) == {};
  }

  /** The first year is exempt when saving starts on its first day. */
  predicate Exempt(z: Zone, first: nat, year: nat) {
    year == first && z.dstStart(first) == FirstDay(first)
  }

  predicate Reversed(z: Zone, startsFirst: bool, first: nat, year: nat) {
    !Exempt(z, first, year) && Summer(z, startsFirst, year).end < Summer(z, startsFirst, year).first
  }

  predicate InReversed(z: Zone, startsFirst: bool, first: nat, year: nat, day: int) {
    Reversed(z, startsFirst, first, year) && Summer(z, startsFirst, year).end <= day < Summer(z, startsFirst, year).first
  }

  /** The years in which the day lies between the end and the beginning of the summer. */
  function Excess(z: Zone, startsFirst: bool, first: nat, year: nat, day: int): nat
    requires first <= year
  {
    if first == year then 0
    else Excess(z, startsFirst, first, year - 1, day) + One(InReversed(z, startsFirst, first, year - 1, day))
  }

  lemma BeforeCovers(z: Zone, startsFirst: bool, first: nat, y: nat, day: int)
    requires 1 <= first <= y && ChangesInYear(z, y) && (first < y ==> ChangesInYear(z, y - 1))
    ensures Count(Before(z, startsFirst, first, y), day) + One(Contains(Summer(z, startsFirst, y), day))
            + One(first < y && FirstDay(first) <= day < Summer(z, startsFirst, y - 1).end)
            == One(FirstDay(first) <= day < Summer(z, startsFirst, y).end)
               + One(InReversed(z, startsFirst, first, y, day))
  {
    var before := Before(z, startsFirst, first, y);
    CountNone(day);
    if before != [] {
      CountNext([], before[0], day);
      assert before == [] + [before[0]];
    }
    if first < y - 1 {
      YearsAdvance(first, y - 1);
    }
  }

  /** How often the pieces up to the last summer cover a day. */
  lemma {:induction false} PiecesCover(z: Zone, startsFirst: bool, first: nat, year: nat, day: int)
    requires 1 <= first < year && forall y :: first <= y < year ==> ChangesInYear(z, y)
    ensures Count(Pieces(z, startsFirst, first, year), day)
            == One(FirstDay(first) <= day < Summer(z, startsFirst, year - 1).end) + Excess(z, startsFirst, first, year, day)
    decreases year
  {
    assert ChangesInYear(z, year - 1) && (first < year - 1 ==> ChangesInYear(z, year - 2));
    BeforeCovers(z, startsFirst, first, year - 1, day);
    PiecesGrow(z, startsFirst, first, year, day);
    if first < year - 1 {
      PiecesCover(z, startsFirst, first, year - 1, day);
    } else {
      NothingCovers(z, startsFirst, first, day);
    }
  }

  lemma NothingCovers(z: Zone, startsFirst: bool, first: nat, day: int)
    ensures Count(Pieces(z, startsFirst, first, first), day) == 0 && Excess(z, startsFirst, first, first, day) == 0
  {
    CountNone(day);
  }

  lemma PiecesGrow(z: Zone, startsFirst: bool, first: nat, year: nat, day: int)
    requires first < year
    ensures Count(Pieces(z, startsFirst, first, year), day)
            == Count(Pieces(z, startsFirst, first, year - 1), day) + Count(Before(z, startsFirst, first, year - 1), day)
               + One(Contains(Summer(z, startsFirst, year - 1), day))
  {
    var before := Before(z, startsFirst, first, year - 1);
    var rest := Pieces(z, startsFirst, first, year - 1);
    CountNext(rest + before, SummerPiece(z, startsFirst, year - 1), day);
    CountNone(day);
    if before == [] {
      assert rest + before == rest;
    } else {
      assert before == [] + [before[0]];
      CountNext(rest, before[0], day);
      CountNext([], before[0], day);
    }
  }

  /**
   Every day of the years is in one piece, and once more for each year whose summer is reversed
   around it; no other day is in any.
   */
  lemma AllPiecesCover(z: Zone, startsFirst: bool, first: nat, last: nat, day: int)
    requires 1 <= first <= last && forall y :: first <= y <= last ==> ChangesInYear(z, y)
    ensures Count(AllPieces(z, startsFirst, first, last), day)
            == One(FirstDay(first) <= day < FirstDay(last + 1)) + Excess(z, startsFirst, first, last + 1, day)
  {
    var end := Piece(Period(Summer(z, startsFirst, last).end, FirstDay(last + 1)), JanuaryOffset(z, startsFirst));
    PiecesCover(z, startsFirst, first, last + 1, day);
    CountNext(Pieces(z, startsFirst, first, last + 1), end, day);
    assert ChangesInYear(z, last);
    if first < last {
      YearsAdvance(first, last);
    }
  }

  lemma {:induction false} ExcessOf(z: Zone, startsFirst: bool, first: nat, year: nat, y: nat)
    requires first <= y < year && Reversed(z, startsFirst, first, y)
    ensures Excess(z, startsFirst, first, year, Summer(z, startsFirst, y).end) >= 1
    decreases year
  {
    if y < year - 1 {
      ExcessOf(z, startsFirst, first, year - 1, y);
    }
  }

  lemma {:induction false} NoExcess(z: Zone, startsFirst: bool, first: nat, year: nat, day: int)
    requires first <= year && forall y :: first <= y < year ==> !Reversed(z, startsFirst, first, y)
    ensures Excess(z, startsFirst, first, year, day) == 0
    decreases year
  {
    if first < year {
      NoExcess(z, startsFirst, first, year - 1, day);
    }
  }

  ghost predicate IsPartition(pieces: seq<Piece>, all: Period) {
    forall day: int :: Count(pieces, day) == One(Contains(all, day))
  }

  /** The pieces are a partition of the years exactly when no year has its summer reversed. */
  lemma PartitionIffNoneReversed(z: Zone, startsFirst: bool, first: nat, last: nat)
    requires 1 <= first <= last && forall y :: first <= y <= last ==> ChangesInYear(z, y)
    ensures IsPartition(AllPieces(z, startsFirst, first, last), Period(FirstDay(first), FirstDay(last + 1)))
            <==> forall y :: first <= y <= last ==> !Reversed(z, startsFirst, first, y)
  {
    var pieces := AllPieces(z, startsFirst, first, last);
    if forall y :: first <= y <= last ==> !Reversed(z, startsFirst, first, y) {
      forall day: int
        ensures Count(pieces, day) == One(Contains(Period(FirstDay(first), FirstDay(last + 1)), day))
      {
        AllPiecesCover(z, startsFirst, first, last, day);
        NoExcess(z, startsFirst, first, last + 1, day);
      }
    } else {
      var y :| first <= y <= last && Reversed(z, startsFirst, first, y);
      var day := Summer(z, startsFirst, y).end;
      AllPiecesCover(z, startsFirst, first, last, day);
      ExcessOf(z, startsFirst, first, last + 1, y);
      assert ChangesInYear(z, y);
      if first < y { YearsAdvance(first, y); }
      if y < last { YearsAdvance(y + 1, last + 1); }
      assert Count(pieces, day) >= 2;
    }
  }

  // ---------- offsets ----------

  /** The change dates of all years come in the same order. */
  ghost predicate SameOrder(z: Zone, startsFirst: bool, first: nat, last: nat) {
    forall y :: first <= y <= last ==> ChangesInYear(z, y) && StartsFirst(z, y) == startsFirst
  }

  ghost predicate RightShift(z: Zone, p: Piece, day: nat) {
    Contains(p.period, day) ==> p.shift == OffsetOn(z, day)
  }

  /** The offset by the year's own dates, told from the summer of that year. */
  lemma OffsetInYear(z: Zone, startsFirst: bool, y: nat, day: nat)
    requires StartsFirst(z, y) == startsFirst && InYear(day, y)
    ensures OffsetOn(z, day) == if Contains(Summer(z, startsFirst, y), day) then JuneOffset(z, startsFirst) else JanuaryOffset(z, startsFirst)
  {
    YearIsUnique(day, YearOf(day), y);
  }

  lemma PieceOfYear(z: Zone, startsFirst: bool, first: nat, y: nat, day: nat)
    requires 1 <= first <= y && SameOrder(z, startsFirst, first, y)
    ensures RightShift(z, SummerPiece(z, startsFirst, y), day)
    ensures forall p :: p in Before(z, startsFirst, first, y) ==> RightShift(z, p, day)
  {
    assert ChangesInYear(z, y) && StartsFirst(z, y) == startsFirst;
    if InYear(day, y) {
      OffsetInYear(z, startsFirst, y, day);
    } else if y > first && InYear(day, y - 1) {
      assert ChangesInYear(z, y - 1) && StartsFirst(z, y - 1) == startsFirst;
      OffsetInYear(z, startsFirst, y - 1, day);
    }
    assert y > first ==> ChangesInYear(z, y - 1);
  }

  lemma {:induction false} PiecesShift(z: Zone, startsFirst: bool, first: nat, year: nat, day: nat)
    requires 1 <= first <= year && (first < year ==> SameOrder(z, startsFirst, first, year - 1))
    ensures forall p :: p in Pieces(z, startsFirst, first, year) ==> RightShift(z, p, day)
    decreases year
  {
    if first < year {
      PiecesShift(z, startsFirst, first, year - 1, day);
      PieceOfYear(z, startsFirst, first, year - 1, day);
    }
  }

  /** Every piece carries the offset of each of its days. */
  lemma AllPiecesShift(z: Zone, startsFirst: bool, first: nat, last: nat, day: nat)
    requires 1 <= first <= last && SameOrder(z, startsFirst, first, last)
    ensures forall p :: p in AllPieces(z, startsFirst, first, last) ==> RightShift(z, p, day)
  {
    PiecesShift(z, startsFirst, first, last + 1, day);
    assert ChangesInYear(z, last) && StartsFirst(z, last) == startsFirst;
    if InYear(day, last) {
      OffsetInYear(z, startsFirst, last, day);
    }
  }

  // ---------- splitting a validity period ----------

  function LastYear(p: Period): nat
    requires !IsNull(p)
  {
    YearOf(p.end - 1)
  }

  lemma YearsOfPeriod(p: Period)
    requires !IsNull(p)
    ensures 1 <= YearOf(p.first) <= LastYear(p)
    ensures forall y :: y >= 1 ==> (FirstDay(y) < p.end <==> y <= LastYear(p))
    ensures forall day :: Contains(p, day) ==> FirstDay(YearOf(p.first)) <= day < FirstDay(LastYear(p) + 1)
  {
    var a, b := YearOf(p.first), LastYear(p);
    if b < a {
      YearsAdvance(b, a);
      if b + 1 < a { YearsAdvance(b + 1, a); }
    }
    forall y | y >= 1
      ensures FirstDay(y) < p.end <==> y <= b
    {
      if y < b { YearsAdvance(y, b); }
      if y > b + 1 { YearsAdvance(b + 1, y); }
    }
  }

  /** The pieces of all years a period has days in. */
  function PiecesFor(z: Zone, validity: Period): seq<Piece> {
    if IsNull(validity) then []
    else
      YearsOfPeriod(validity);
      AllPieces(z, StartsFirst(z, LastYear(validity)), YearOf(validity.first), LastYear(validity))
  }

  method YearsIn(validity: Period) returns (years: seq<nat>)
    requires !IsNull(validity)
    ensures |years| == LastYear(validity) + 1 - YearOf(validity.first) > 0
    ensures forall i :: 0 <= i < |years| ==> years[i] == YearOf(validity.first) + i
  {
    YearsOfPeriod(validity);
    var first := YearOf(validity.first);
    years := [];
    var y := first;
    while FirstDay(y) < validity.end
      invariant first <= y <= LastYear(validity) + 1
      invariant |years| == y - first && forall i :: 0 <= i < |years| ==> years[i] == first + i
      decreases LastYear(validity) + 1 - y
    {
      years := years + [y];
      y := y + 1;
    }
  }

  method AddYear(z: Zone, startsFirst: bool, ghost first: nat, year: nat, pieces: seq<Piece>) returns (res: seq<Piece>)
    requires first <= year && pieces == Pieces(z, startsFirst, first, year)
    ensures res == Pieces(z, startsFirst, first, year + 1)
  {
    res := pieces;
    var summer := Summer(z, startsFirst, year);
    if res != [] {
      res := res + [Piece(Period(res[|res| - 1].period.end, summer.first), JanuaryOffset(z, startsFirst))];
    } else if z.dstStart(year) != FirstDay(year) {
      res := res + [Piece(Period(FirstDay(year), summer.first), JanuaryOffset(z, startsFirst))];
    }
    assert res == pieces + Before(z, startsFirst, first, year);
    res := res + [Piece(summer, JuneOffset(z, startsFirst))];
  }

  method GetDstPeriods(z: Zone, validity: Period) returns (res: seq<Piece>)
    ensures res == PiecesFor(z, validity)
  {
    if IsNull(validity) {
      return [];
    }
    YearsOfPeriod(validity);
    var years := YearsIn(validity);
    res := PiecesOfYears(z, years, YearOf(validity.first), LastYear(validity));
  }

  method PiecesOfYears(z: Zone, years: seq<nat>, ghost first: nat, ghost last: nat) returns (res: seq<Piece>)
    requires 1 <= first <= last && |years| == last + 1 - first
    requires forall i :: 0 <= i < |years| ==> years[i] == first + i
    ensures res == AllPieces(z, StartsFirst(z, last), first, last)
  {
    var back := years[|years| - 1];
    assert back == last;
    var startsFirst := StartsFirst(z, back);
    res := [];
    ghost var year := first;
    for i := 0 to |years|
      invariant year == first + i && res == Pieces(z, startsFirst, first, year)
    {
      assert years[i] == year;
      res := AddYear(z, startsFirst, first, years[i], res);
      year := year + 1;
    }
    assert year == last + 1 && back == last;
    res := AddEnd(z, startsFirst, first, back, res);
  }

  method AddEnd(z: Zone, startsFirst: bool, ghost first: nat, last: nat, pieces: seq<Piece>) returns (res: seq<Piece>)
    requires 1 <= first <= last && pieces == Pieces(z, startsFirst, first, last + 1)
    ensures res == AllPieces(z, startsFirst, first, last)
  {
    res := pieces + [Piece(Period(pieces[|pieces| - 1].period.end, FirstDay(last + 1)), JanuaryOffset(z, startsFirst))];
  }

  type Groups = map<int, seq<Period>>

  function GroupOf(groups: Groups, shift: int): seq<Period> {
    if shift in groups then groups[shift] else []
  }

  /** The parts of the validity period that lie in pieces of the given shift. */
  function Grouped(pieces: seq<Piece>, validity: Period, shift: int): seq<Period> {
    if pieces == [] then []
    else
      var n := |pieces| - 1;
      Grouped(pieces[..n], validity, shift)
      + (if pieces[n].shift == shift && Intersects(validity, pieces[n].period) then [Intersection(validity, pieces[n].period)] else [])
  }

  function CountIn(periods: seq<Period>, day: int): nat {
    if periods == [] then 0 else CountIn(periods[..|periods| - 1], day) + One(Contains(periods[|periods| - 1], day))
  }

  /** No time zone: the source logs the error and splits nothing. */
  datatype MaybeZone = NoZone | SomeZone(zone: Zone)

  method SplitOverDst(zone: MaybeZone, validity: Period) returns (groups: Groups)
    ensures zone.NoZone? ==> groups == map[]
    ensures zone.SomeZone? && !zone.zone.hasDst ==> groups == map[zone.zone.base := [validity]]
    ensures zone.SomeZone? && zone.zone.hasDst ==>
              forall k :: GroupOf(groups, k) == Grouped(PiecesFor(zone.zone, validity), validity, k)
  {
    if zone.NoZone? {
      return map[];
    }
    if !zone.zone.hasDst {
      return map[zone.zone.base := [validity]];
    }
    var pieces := GetDstPeriods(zone.zone, validity);
    groups := GroupPieces(pieces, validity);
  }

  method GroupPieces(pieces: seq<Piece>, validity: Period) returns (groups: Groups)
    ensures forall k :: GroupOf(groups, k) == Grouped(pieces, validity, k)
  {
    groups := map[];
    for i := 0 to |pieces|
      invariant forall k :: GroupOf(groups, k) == Grouped(pieces[..i], validity, k)
    {
      var p := pieces[i];
      assert pieces[..i + 1][..i] == pieces[..i];
      if Intersects(validity, p.period) {
        groups := groups[p.shift := GroupOf(groups, p.shift) + [Intersection(validity, p.period)]];
      }
    }
    assert pieces[..|pieces|] == pieces;
  }

  lemma {:induction false} GroupedCount(pieces: seq<Piece>, validity: Period, shift: int, offset: int, day: int)
    requires forall p :: p in pieces && Contains(p.period, day) ==> p.shift == offset
    ensures CountIn(Grouped(pieces, validity, shift), day) == if shift == offset && Contains(validity, day) then Count(pieces, day) else 0
  {
    if pieces != [] {
      var n := |pieces| - 1;
      GroupedCount(pieces[..n], validity, shift, offset, day);
      CountNext(pieces[..n], pieces[n], day);
      assert pieces == pieces[..n] + [pieces[n]];
      IntersectionIsExact(validity, pieces[n].period, day);
      var rest := Grouped(pieces[..n], validity, shift);
      var all := Grouped(pieces, validity, shift);
      if all != rest {
        assert all[..|all| - 1] == rest;
      }
      assert pieces[n] in pieces;
    } else {
      CountNone(day);
    }
  }

  /**
   When the change dates of all years come in the same order, every day of the validity period is in
   exactly one interval, in the group of the offset that the dates of its own year give it.
   */
  lemma SplitIsPartition(z: Zone, validity: Period, day: int, shift: int)
    requires !IsNull(validity)
    requires SameOrder(z, StartsFirst(z, LastYear(validity)), YearOf(validity.first), LastYear(validity))
    ensures CountIn(Grouped(PiecesFor(z, validity), validity, shift), day)
            == One(Contains(validity, day) && shift == OffsetOn(z, day))
  {
    if Contains(validity, day) {
      InOnePiece(z, validity, day);
      GroupedCount(PiecesFor(z, validity), validity, shift, OffsetOn(z, day), day);
    } else {
      NoneOutside(PiecesFor(z, validity), validity, shift, day);
    }
  }

  lemma InOnePiece(z: Zone, validity: Period, day: nat)
    requires Contains(validity, day)
    requires SameOrder(z, StartsFirst(z, LastYear(validity)), YearOf(validity.first), LastYear(validity))
    ensures Count(PiecesFor(z, validity), day) == 1
    ensures forall p :: p in PiecesFor(z, validity) && Contains(p.period, day) ==> p.shift == OffsetOn(z, day)
  {
    YearsOfPeriod(validity);
    var first, last := YearOf(validity.first), LastYear(validity);
    var startsFirst := StartsFirst(z, last);
    AllPiecesShift(z, startsFirst, first, last, day);
    forall y | first <= y <= last
      ensures ChangesInYear(z, y) && !Reversed(z, startsFirst, first, y)
    {
      assert StartsFirst(z, y) == startsFirst;
    }
    AllPiecesCover(z, startsFirst, first, last, day);
    NoExcess(z, startsFirst, first, last + 1, day);
    assert forall p :: p in PiecesFor(z, validity) ==> RightShift(z, p, day);
  }

  lemma {:induction false} NoneOutside(pieces: seq<Piece>, validity: Period, shift: int, day: int)
    requires !Contains(validity, day)
    ensures CountIn(Grouped(pieces, validity, shift), day) == 0
  {
    if pieces != [] {
      var n := |pieces| - 1;
      NoneOutside(pieces[..n], validity, shift, day);
      IntersectionIsExact(validity, pieces[n].period, day);
      var rest := Grouped(pieces[..n], validity, shift);
      var all := Grouped(pieces, validity, shift);
      if all != rest {
        assert all[..|all| - 1] == rest;
      }
    }
  }

  /** Saving from day 300 of the first year to its day 80, and from day 80 of the second to its day 300. */
  const TURNED := Zone(0, 3600, true, y => if y == 1 then 300 else 445, y => if y == 1 then 80 else 665)

  /** The order of the second year is taken for both: day 80 of the first year lies in two pieces. */
  lemma TurnedYearIsCoveredTwice()
    ensures ChangesInYear(TURNED, 1) && ChangesInYear(TURNED, 2)
    ensures StartsFirst(TURNED, 2) && !StartsFirst(TURNED, 1)
    ensures Count(PiecesFor(TURNED, Period(0, 700)), 80) == 2
  {
    assert FirstDay(1) == 0 && FirstDay(2) == 365 && FirstDay(3) == 730;
    YearIsUnique(0, YearOf(0), 1);
    YearIsUnique(699, YearOf(699), 2);
    AllPiecesCover(TURNED, true, 1, 2, 80);
    assert InReversed(TURNED, true, 1, 1, 80) && !InReversed(TURNED, true, 1, 2, 80);
    assert Excess(TURNED, true, 1, 2, 80) == 1;
  }
}
