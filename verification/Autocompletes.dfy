/** The index of words: which positions a word was indexed at, looked up by prefixes of words. */
module Autocompletes {
  import opened Words

  /** A word and the positions it was indexed at. */
  datatype Entry = Entry(word: string, positions: seq<nat>)

  // ---------- sorted lists of numbers ----------

  ghost predicate Increasing(s: seq<nat>) {
    forall i, j :: 0 <= i < j < |s| ==> s[i] < s[j]
  }

  ghost predicate Sorted(s: seq<nat>) {
    forall i, j :: 0 <= i < j < |s| ==> s[i] <= s[j]
  }

  /** `x` put before the first element that is greater. */
  function Insert(x: nat, s: seq<nat>): seq<nat> {
    if s == [] then [x] else if x < s[0] then [x] + s else [s[0]] + Insert(x, s[1..])
  }

  /** The elements in order, as a sort leaves them. */
  function Sort(s: seq<nat>): seq<nat> {
    if s == [] then [] else Insert(s[0], Sort(s[1..]))
  }

  /** A sorted list with one of each run of equal elements, as `unique` leaves it. */
  function Unique(s: seq<nat>): seq<nat> {
    if |s| <= 1 then s else if s[0] == s[1] then Unique(s[1..]) else [s[0]] + Unique(s[1..])
  }

  lemma {:induction false} InsertKeeps(x: nat, s: seq<nat>, y: nat)
    requires Sorted(s)
    ensures Sorted(Insert(x, s))
    ensures y in Insert(x, s) <==> y == x || y in s
  {
    if s != [] && x >= s[0] {
      InsertKeeps(x, s[1..], y);
      assert s == [s[0]] + s[1..];
      var rest := Insert(x, s[1..]);
      forall k | 0 <= k < |rest|
        ensures s[0] <= rest[k]
      {
        InsertKeeps(x, s[1..], rest[k]);
      }
    }
  }

  lemma {:induction false} SortKeeps(s: seq<nat>, y: nat)
    ensures Sorted(Sort(s))
    ensures y in Sort(s) <==> y in s
  {
    if s != [] {
      SortKeeps(s[1..], y);
      InsertKeeps(s[0], Sort(s[1..]), y);
      assert s == [s[0]] + s[1..];
    }
  }

  lemma {:induction false} UniqueKeeps(s: seq<nat>, y: nat)
    requires Sorted(s)
    ensures Increasing(Unique(s))
    ensures y in Unique(s) <==> y in s
  {
    if |s| > 1 {
      UniqueKeeps(s[1..], y);
      assert s == [s[0]] + s[1..];
      if s[0] != s[1] {
        var rest := Unique(s[1..]);
        forall k | 0 <= k < |rest|
          ensures s[0] < rest[k]
        {
          UniqueKeeps(s[1..], rest[k]);
          assert s[0] < s[1] <= rest[k];
        }
      }
    }
  }

  /** The elements of a list, sorted and without duplicates. */
  function Canonical(s: seq<nat>): seq<nat> {
    Unique(Sort(s))
  }

  lemma CanonicalKeeps(s: seq<nat>, y: nat)
    ensures Increasing(Canonical(s))
    ensures y in Canonical(s) <==> y in s
  {
    SortKeeps(s, y);
    UniqueKeeps(Sort(s), y);
  }

  lemma TailOf(a: seq<nat>, x: nat)
    requires a != [] && Increasing(a)
    ensures x in a[1..] <==> x in a && x != a[0]
  {
    assert a == [a[0]] + a[1..];
  }

  /** A sorted list without duplicates is known by its elements. */
  lemma {:induction false} IncreasingIsUnique(a: seq<nat>, b: seq<nat>)
    requires Increasing(a) && Increasing(b) && forall x :: x in a <==> x in b
    ensures a == b
  {
    assert b != [] ==> b[0] in b;
    if a != [] {
      assert a[0] in a;
      assert b != [] && b[0] in b;
      var i :| 0 <= i < |a| && a[i] == b[0];
      var j :| 0 <= j < |b| && b[j] == a[0];
      assert a[0] == b[0];
      forall x: nat
        ensures x in a[1..] <==> x in b[1..]
      {
        TailOf(a, x);
        TailOf(b, x);
      }
      IncreasingIsUnique(a[1..], b[1..]);
      assert a == [a[0]] + a[1..] && b == [b[0]] + b[1..];
    }
  }

  method BinarySearch(s: seq<nat>, x: nat) returns (found: bool)
    requires Sorted(s)
    ensures found <==> x in s
  {
    var lo, hi := 0, |s|;
    while lo < hi
      invariant 0 <= lo <= hi <= |s|
      invariant forall i :: 0 <= i < lo ==> s[i] < x
      invariant forall i :: hi <= i < |s| ==> s[i] >= x
    {
      var mid := (lo + hi) / 2;
      if s[mid] < x { lo := mid + 1; } else { hi := mid; }
    }
    found := lo < |s| && s[lo] == x;
  }

  // ---------- looking a prefix up ----------

  ghost predicate InOrder(dictionary: seq<Entry>) {
    forall i, j :: 0 <= i < j < |dictionary| ==> Before(dictionary[i].word, dictionary[j].word)
  }

  /** The comparison that finds where the words starting with `token` begin. */
  predicate IsBelow(e: Entry, token: string) {
    Before(e.word, token)
  }

  /** The comparison that finds where they end: a word that starts with `token` is not above it. */
  predicate IsAbove(token: string, e: Entry) {
    !(token <= e.word) && Before(token, e.word)
  }

  method LowerBound(dictionary: seq<Entry>, token: string) returns (lower: nat)
    requires InOrder(dictionary)
    ensures lower <= |dictionary|
    ensures forall i :: 0 <= i < |dictionary| ==> (i < lower <==> IsBelow(dictionary[i], token))
  {
    lower := 0;
    var hi := |dictionary|;
    while lower < hi
      invariant 0 <= lower <= hi <= |dictionary|
      invariant forall i :: 0 <= i < lower ==> IsBelow(dictionary[i], token)
      invariant forall i :: hi <= i < |dictionary| ==> !IsBelow(dictionary[i], token)
    {
      var mid := (lower + hi) / 2;
      BelowIsDownward(dictionary, token, mid);
      if IsBelow(dictionary[mid], token) { lower := mid + 1; } else { hi := mid; }
    }
  }

  method UpperBound(dictionary: seq<Entry>, token: string) returns (upper: nat)
    requires InOrder(dictionary)
    ensures upper <= |dictionary|
    ensures forall i :: 0 <= i < |dictionary| ==> (i >= upper <==> IsAbove(token, dictionary[i]))
  {
    upper := 0;
    var hi := |dictionary|;
    while upper < hi
      invariant 0 <= upper <= hi <= |dictionary|
      invariant forall i :: 0 <= i < upper ==> !IsAbove(token, dictionary[i])
      invariant forall i :: hi <= i < |dictionary| ==> IsAbove(token, dictionary[i])
    {
      var mid := (upper + hi) / 2;
      AboveIsUpward(dictionary, token, mid);
      if IsAbove(token, dictionary[mid]) { hi := mid; } else { upper := mid + 1; }
    }
  }

  /** Both comparisons cut an ordered dictionary in two. */
  lemma BelowIsDownward(dictionary: seq<Entry>, token: string, mid: nat)
    requires InOrder(dictionary) && mid < |dictionary|
    ensures IsBelow(dictionary[mid], token) ==> forall i :: 0 <= i <= mid ==> IsBelow(dictionary[i], token)
    ensures !IsBelow(dictionary[mid], token) ==> forall i :: mid <= i < |dictionary| ==> !IsBelow(dictionary[i], token)
  {
    forall i | 0 <= i < |dictionary|
      ensures i <= mid && IsBelow(dictionary[mid], token) ==> IsBelow(dictionary[i], token)
      ensures i >= mid && IsBelow(dictionary[i], token) ==> IsBelow(dictionary[mid], token)
    {
      if i < mid && IsBelow(dictionary[mid], token) {
        BeforeIsTransitive(dictionary[i].word, dictionary[mid].word, token);
      } else if i > mid && IsBelow(dictionary[i], token) {
        BeforeIsTransitive(dictionary[mid].word, dictionary[i].word, token);
      }
    }
  }

  lemma AboveIsUpward(dictionary: seq<Entry>, token: string, mid: nat)
    requires InOrder(dictionary) && mid < |dictionary|
    ensures IsAbove(token, dictionary[mid]) ==> forall i :: mid <= i < |dictionary| ==> IsAbove(token, dictionary[i])
    ensures !IsAbove(token, dictionary[mid]) ==> forall i :: 0 <= i <= mid ==> !IsAbove(token, dictionary[i])
  {
    forall i | 0 <= i < |dictionary|
      ensures i >= mid && IsAbove(token, dictionary[mid]) ==> IsAbove(token, dictionary[i])
      ensures i <= mid && IsAbove(token, dictionary[i]) ==> IsAbove(token, dictionary[mid])
    {
      if i > mid && IsAbove(token, dictionary[mid]) {
        NoPrefixBeyond(token, dictionary[mid].word, dictionary[i].word);
      } else if i < mid && IsAbove(token, dictionary[i]) {
        NoPrefixBeyond(token, dictionary[i].word, dictionary[mid].word);
      }
    }
  }

  /** Neither below nor above are exactly the words that start with the token. */
  lemma BetweenIsPrefix(e: Entry, token: string)
    ensures !IsBelow(e, token) && !IsAbove(token, e) <==> token <= e.word
  {
    BeforeIsTotal(e.word, token);
    if token <= e.word {
      PrefixIsNotAfter(token, e.word);
    }
  }

  /** Some word of the dictionary that starts with `token` was indexed at `position`. */
  ghost predicate Matches(dictionary: seq<Entry>, token: string, position: nat) {
    exists k :: 0 <= k < |dictionary| && token <= dictionary[k].word && position in dictionary[k].positions
  }

  method Match(token: string, dictionary: seq<Entry>) returns (result: seq<nat>)
    requires InOrder(dictionary)
    ensures forall x :: x in result <==> Matches(dictionary, token, x)
  {
    var lower := LowerBound(dictionary, token);
    var upper := UpperBound(dictionary, token);
    forall i | 0 <= i < |dictionary|
      ensures lower <= i < upper <==> token <= dictionary[i].word
    {
      BetweenIsPrefix(dictionary[i], token);
    }
    result := [];
    var k := lower;
    while k < upper
      invariant lower <= k && (k <= upper || k == lower)
      invariant forall x :: x in result <==> exists i :: lower <= i < k && x in dictionary[i].positions
    {
      result := result + dictionary[k].positions;
      k := k + 1;
    }
  }

  /** The positions at which every word of the query starts some indexed word; none for an empty query. */
  ghost predicate Answers(dictionary: seq<Entry>, query: seq<string>, position: nat) {
    query != [] && forall k :: 0 <= k < |query| ==> Matches(dictionary, query[k], position)
  }

  method Common(result: seq<nat>, other: seq<nat>) returns (common: seq<nat>)
    ensures Increasing(common)
    ensures forall x :: x in common <==> x in result && x in other
  {
    var sorted := Sort(result);
    forall x: nat
      ensures Sorted(sorted) && (x in sorted <==> x in result)
    {
      SortKeeps(result, x);
    }
    SortKeeps(result, 0);
    var found := [];
    for i := 0 to |other|
      invariant forall x :: x in found <==> x in sorted && x in other[..i]
    {
      var there := BinarySearch(sorted, other[i]);
      if there {
        found := found + [other[i]];
      }
    }
    assert other[..|other|] == other;
    common := Canonicalise(found);
  }

  method Canonicalise(list: seq<nat>) returns (result: seq<nat>)
    ensures Increasing(result)
    ensures forall x :: x in result <==> x in list
  {
    result := Canonical(list);
    CanonicalKeeps(list, 0);
    forall x: nat
      ensures x in result <==> x in list
    {
      CanonicalKeeps(list, x);
    }
  }

  method FindIn(dictionary: seq<Entry>, query: seq<string>) returns (result: seq<nat>)
    requires InOrder(dictionary)
    ensures Increasing(result)
    ensures forall x :: x in result <==> Answers(dictionary, query, x)
  {
    result := [];
    if query == [] {
      return;
    }
    result := Match(query[0], dictionary);
    assert query[..1] == [query[0]];
    if |query| == 1 {
      result := Canonicalise(result);
      assert query == query[..1];
    }
    for k := 1 to |query|
      invariant k > 1 || |query| == 1 ==> Increasing(result)
      invariant forall x :: x in result <==> Answers(dictionary, query[..k], x)
    {
      var other := Match(query[k], dictionary);
      AnswersNext(dictionary, query, k);
      result := Common(result, other);
    }
    assert query[..|query|] == query;
  }

  lemma AnswersNext(dictionary: seq<Entry>, query: seq<string>, k: nat)
    requires 0 < k < |query|
    ensures forall x :: Answers(dictionary, query[..k + 1], x) <==> Answers(dictionary, query[..k], x) && Matches(dictionary, query[k], x)
  {
    var longer, shorter := query[..k + 1], query[..k];
    assert forall i :: 0 <= i < k ==> longer[i] == shorter[i];
    assert longer[k] == query[k];
  }

  // ---------- building the index ----------

  type WordMap = map<string, set<nat>>

  predicate Indexed(words: WordMap, word: string, position: nat) {
    word in words && position in words[word]
  }

  /** Some word that starts with `token` was indexed at the position. */
  ghost predicate IndexedPrefix(words: WordMap, token: string, position: nat) {
    exists w :: token <= w && Indexed(words, w, position)
  }

  /** The dictionary lists a map: its words in order, each with its positions in order. */
  ghost predicate IsListing(dictionary: seq<Entry>, words: WordMap) {
    && InOrder(dictionary)
    && (forall k :: 0 <= k < |dictionary| ==> IsEntry(dictionary[k], words))
    && (forall w :: w in words ==> exists k :: 0 <= k < |dictionary| && dictionary[k].word == w)
  }

  ghost predicate IsEntry(e: Entry, words: WordMap) {
    && e.word in words && Increasing(e.positions)
    && forall x :: x in e.positions <==> x in words[e.word]
  }

  /** A token matches at a position exactly when some word it starts was indexed there. */
  lemma ListingMatches(dictionary: seq<Entry>, words: WordMap, token: string, position: nat)
    requires IsListing(dictionary, words)
    ensures Matches(dictionary, token, position) <==> IndexedPrefix(words, token, position)
  {
    if Matches(dictionary, token, position) {
      var k :| 0 <= k < |dictionary| && token <= dictionary[k].word && position in dictionary[k].positions;
      assert Indexed(words, dictionary[k].word, position);
    }
    if w :| token <= w && Indexed(words, w, position) {
      var k :| 0 <= k < |dictionary| && dictionary[k].word == w;
      assert IsEntry(dictionary[k], words);
    }
  }

  /** The first key of the map. */
  method LeastWord(words: set<string>) returns (least: string)
    requires words != {}
    ensures least in words
    ensures forall w :: w in words ==> w == least || Before(least, w)
  {
    least :| least in words;
    var rest := words - {least};
    while rest != {}
      invariant rest <= words && least in words
      invariant forall w :: w in words && w !in rest ==> w == least || Before(least, w)
      decreases |rest|
    {
      var w :| w in rest;
      BeforeIsTotal(w, least);
      if Before(w, least) {
        forall v | v in words && v !in rest && v != least
          ensures Before(w, v)
        {
          BeforeIsTransitive(w, least, v);
        }
        least := w;
      }
      rest := rest - {w};
    }
  }

  method Ascending(positions: set<nat>) returns (list: seq<nat>)
    ensures Increasing(list)
    ensures forall x :: x in list <==> x in positions
  {
    list := [];
    var rest := positions;
    while rest != {}
      invariant rest <= positions
      invariant forall x :: x in list <==> x in positions && x !in rest
      decreases |rest|
    {
      var x :| x in rest;
      list := list + [x];
      rest := rest - {x};
    }
    list := Canonicalise(list);
  }

  class Autocomplete {
    var tempWordMap: WordMap
    var wordDictionary: seq<Entry>

    constructor ()
      ensures tempWordMap == map[] && wordDictionary == []
    {
      tempWordMap, wordDictionary := map[], [];
    }

    /** Indexes the words a string was cut into. */
    method AddString(words: seq<string>, position: nat)
      modifies this`tempWordMap
      ensures forall w, p :: Indexed(tempWordMap, w, p) <==> Indexed(old(tempWordMap), w, p) || (w in words && p == position)
    {
      for i := 0 to |words|
        invariant forall w, p :: Indexed(tempWordMap, w, p) <==> Indexed(old(tempWordMap), w, p) || (w in words[..i] && p == position)
      {
        var w := words[i];
        var before := if w in tempWordMap then tempWordMap[w] else {};
        tempWordMap := tempWordMap[w := before + {position}];
      }
      assert words[..|words|] == words;
    }

    /** Lists the indexed words behind what the dictionary holds already. */
    method Build()
      modifies this`wordDictionary
      ensures old(wordDictionary) <= wordDictionary
      ensures IsListing(wordDictionary[|old(wordDictionary)|..], tempWordMap)
    {
      ghost var was := wordDictionary;
      ghost var listed: seq<Entry>, at: map<string, nat> := [], map[];
      var rest := tempWordMap.Keys;
      while rest != {}
        invariant rest <= tempWordMap.Keys && wordDictionary == was + listed
        invariant InOrder(listed)
        invariant forall k, w :: 0 <= k < |listed| && w in rest ==> Before(listed[k].word, w)
        invariant forall k :: 0 <= k < |listed| ==> IsEntry(listed[k], tempWordMap)
        invariant forall w :: w in tempWordMap && w !in rest ==> w in at && at[w] < |listed| && listed[at[w]].word == w
        decreases |rest|
      {
        var w := LeastWord(rest);
        var positions := Ascending(tempWordMap[w]);
        wordDictionary := wordDictionary + [Entry(w, positions)];
        at := at[w := |listed|];
        listed := listed + [Entry(w, positions)];
        rest := rest - {w};
      }
    }

    /** The positions where every word of the query starts some indexed word, each once, in order. */
    method Find(query: seq<string>) returns (result: seq<nat>)
      requires IsListing(wordDictionary, tempWordMap)
      ensures Increasing(result)
      ensures forall x :: x in result <==>
                query != [] && forall q :: q in query ==> IndexedPrefix(tempWordMap, q, x)
    {
      result := FindIn(wordDictionary, query);
      forall x: nat
        ensures Answers(wordDictionary, query, x) <==>
                query != [] && forall q :: q in query ==> IndexedPrefix(tempWordMap, q, x)
      {
        forall k | 0 <= k < |query|
          ensures Matches(wordDictionary, query[k], x) <==> IndexedPrefix(tempWordMap, query[k], x)
        {
          ListingMatches(wordDictionary, tempWordMap, query[k], x);
        }
        if Answers(wordDictionary, query, x) {
          forall q | q in query
            ensures IndexedPrefix(tempWordMap, q, x)
          {
            var k :| 0 <= k < |query| && query[k] == q;
            assert Matches(wordDictionary, query[k], x);
          }
        }
      }
    }
  }
}
