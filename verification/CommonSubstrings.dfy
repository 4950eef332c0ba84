/** The longest common substring of two strings, by a table of which only two rows are kept. */
module CommonSubstrings {

  /** The two strings have the same `n` characters, ending just before `i` and `j`. */
  predicate Match(s: string, t: string, i: nat, j: nat, n: nat) {
    n <= i <= |s| && n <= j <= |t| && s[i - n..i] == t[j - n..j]
  }

  /** How many equal characters end at `i` and `j`: the table. */
  function Run(s: string, t: string, i: nat, j: nat): nat
    requires i < |s| && j < |t|
  {
    if s[i] != t[j] then 0 else if i == 0 || j == 0 then 1 else 1 + Run(s, t, i - 1, j - 1)
  }

  lemma MatchShrinks(s: string, t: string, i: nat, j: nat, n: nat)
    requires n >= 1 && i >= 1 && j >= 1
    ensures Match(s, t, i, j, n) <==> i <= |s| && j <= |t| && s[i - 1] == t[j - 1] && Match(s, t, i - 1, j - 1, n - 1)
  {
    if n <= i <= |s| && n <= j <= |t| {
      var a, b := s[i - n..i], t[j - n..j];
      assert a[..n - 1] == s[i - n..i - 1] && b[..n - 1] == t[j - n..j - 1];
      assert a == a[..n - 1] + [s[i - 1]] && b == b[..n - 1] + [t[j - 1]];
      assert a[n - 1] == s[i - 1] && b[n - 1] == t[j - 1];
    }
  }

  lemma MatchNothing(s: string, t: string, i: nat, j: nat)
    ensures Match(s, t, i, j, 0) <==> i <= |s| && j <= |t|
  {
  }

  /** The table holds the greatest number of characters that match there. */
  lemma {:induction false} RunIsGreatest(s: string, t: string, i: nat, j: nat, n: nat)
    requires i < |s| && j < |t|
    ensures Match(s, t, i + 1, j + 1, n) <==> n <= Run(s, t, i, j)
    decreases i
  {
    if n == 0 {
      MatchNothing(s, t, i + 1, j + 1);
    } else {
      MatchShrinks(s, t, i + 1, j + 1, n);
      if i >= 1 && j >= 1 {
        RunIsGreatest(s, t, i - 1, j - 1, n - 1);
      } else if n == 1 {
        MatchNothing(s, t, i, j);
      }
    }
  }

  /** Row by row, whether a cell comes before another. */
  predicate Earlier(i: nat, j: nat, i': nat, j': nat) {
    i < i' || (i == i' && j < j')
  }

  /** Among the cells before (`i`, `j`), `n` is the greatest number and `at` the column where it is met first. */
  ghost predicate BestBefore(s: string, t: string, i: nat, j: nat, n: nat, at: nat) {
    && (forall a, b :: 0 <= a < |s| && 0 <= b < |t| && Earlier(a, b, i, j) ==> Run(s, t, a, b) <= n)
    && (n == 0 ==> at == 0)
    && (n > 0 ==> exists a: nat :: IsFirst(s, t, a, at, n) && Earlier(a, at, i, j))
  }

  ghost predicate IsFirst(s: string, t: string, a: nat, at: nat, n: nat) {
    && a < |s| && at < |t| && Run(s, t, a, at) == n
    && forall c, d :: 0 <= c < |s| && 0 <= d < |t| && Earlier(c, d, a, at) ==> Run(s, t, c, d) < n
  }

  /** What the search has to find, told without the table. */
  ghost predicate IsLongest(s: string, t: string, n: nat, at: nat) {
    && (exists i: nat, j: nat :: Match(s, t, i, j, n))
    && (forall i: nat, j: nat, m: nat :: Match(s, t, i, j, m) ==> m <= n)
    && (n > 0 ==> exists i: nat :: FirstMatch(s, t, i, at, n))
    && (n == 0 ==> at == 0)
  }

  /** The first match of `n` characters, row by row, ends with the characters at `i` and `at`. */
  ghost predicate FirstMatch(s: string, t: string, i: nat, at: nat, n: nat) {
    && Match(s, t, i + 1, at + 1, n)
    && forall c: nat, d: nat :: Match(s, t, c + 1, d + 1, n) ==> !Earlier(c, d, i, at)
  }

  lemma BestIsLongest(s: string, t: string, n: nat, at: nat)
    requires BestBefore(s, t, |s|, 0, n, at)
    ensures IsLongest(s, t, n, at)
  {
    forall i: nat, j: nat, m: nat | Match(s, t, i, j, m)
      ensures m <= n
    {
      if m > 0 {
        RunIsGreatest(s, t, i - 1, j - 1, m);
        assert Earlier(i - 1, j - 1, |s|, 0);
      }
    }
    if n == 0 {
      assert Match(s, t, 0, 0, 0);
    } else {
      var a: nat :| IsFirst(s, t, a, at, n) && Earlier(a, at, |s|, 0);
      RunIsGreatest(s, t, a, at, n);
      forall c: nat, d: nat | Match(s, t, c + 1, d + 1, n)
        ensures !Earlier(c, d, a, at)
      {
        RunIsGreatest(s, t, c, d, n);
      }
      assert FirstMatch(s, t, a, at, n);
    }
  }

  /** Nothing else is the longest. */
  lemma LongestIsUnique(s: string, t: string, n: nat, at: nat, n': nat, at': nat)
    requires IsLongest(s, t, n, at) && IsLongest(s, t, n', at')
    ensures n == n' && at == at'
  {
    assert n == n';
    if n > 0 {
      var i: nat :| FirstMatch(s, t, i, at, n);
      var i': nat :| FirstMatch(s, t, i', at', n);
      assert Match(s, t, i + 1, at + 1, n) && Match(s, t, i' + 1, at' + 1, n);
      assert !Earlier(i', at', i, at) && !Earlier(i, at, i', at');
    }
  }

  /** One more cell of the table. */
  lemma NextCell(s: string, t: string, i: nat, j: nat, n: nat, at: nat)
    requires i < |s| && j < |t| && BestBefore(s, t, i, j, n, at)
    ensures if n < Run(s, t, i, j) then BestBefore(s, t, i, j + 1, Run(s, t, i, j), j) else BestBefore(s, t, i, j + 1, n, at)
  {
    var r := Run(s, t, i, j);
    if n < r {
      assert IsFirst(s, t, i, j, r);
    } else if n > 0 {
      var a: nat :| IsFirst(s, t, a, at, n) && Earlier(a, at, i, j);
      assert Earlier(a, at, i, j + 1);
    }
  }

  lemma NextRow(s: string, t: string, i: nat, n: nat, at: nat)
    requires i < |s| && BestBefore(s, t, i, |t|, n, at)
    ensures BestBefore(s, t, i + 1, 0, n, at)
  {
    if n > 0 {
      var a: nat :| IsFirst(s, t, a, at, n) && Earlier(a, at, i, |t|);
      assert Earlier(a, at, i + 1, 0);
    }
  }

  ghost predicate IsRow(s: string, t: string, i: nat, row: array<nat>, upTo: nat)
    reads row
  {
    row.Length == |t| && i < |s| && forall j :: 0 <= j < upTo && j < |t| ==> row[j] == Run(s, t, i, j)
  }

  method FillRow(s: string, t: string, i: nat, curr: array<nat>, prev: array<nat>, n: nat, at: nat) returns (max: nat, position: nat)
    requires i < |s| && curr != prev && curr.Length == |t|
    requires i > 0 ==> IsRow(s, t, i - 1, prev, |t|)
    requires BestBefore(s, t, i, 0, n, at)
    modifies curr
    ensures IsRow(s, t, i, curr, |t|)
    ensures BestBefore(s, t, i, |t|, max, position)
  {
    max, position := n, at;
    for j := 0 to |t|
      invariant IsRow(s, t, i, curr, j)
      invariant BestBefore(s, t, i, j, max, position)
    {
      NextCell(s, t, i, j, max, position);
      if s[i] != t[j] {
        curr[j] := 0;
      } else {
        if i == 0 || j == 0 {
          curr[j] := 1;
        } else {
          curr[j] := 1 + prev[j - 1];
        }
        if max < curr[j] {
          max, position := curr[j], j;
        }
      }
    }
  }

  method LongestCommonSubstring(s: string, t: string) returns (max: nat, position: nat)
    ensures IsLongest(s, t, max, position)
  {
    max, position := 0, 0;
    if s == "" || t == "" {
      assert BestBefore(s, t, |s|, 0, 0, 0);
      BestIsLongest(s, t, 0, 0);
      return;
    }
    var curr := new nat[|t|](_ => 0);
    var prev := new nat[|t|](_ => 0);
    for i := 0 to |s|
      invariant fresh(curr) && fresh(prev) && curr != prev && curr.Length == prev.Length == |t|
      invariant i > 0 ==> IsRow(s, t, i - 1, prev, |t|)
      invariant BestBefore(s, t, i, 0, max, position)
    {
      max, position := FillRow(s, t, i, curr, prev, max, position);
      NextRow(s, t, i, max, position);
      curr, prev := prev, curr;
    }
    BestIsLongest(s, t, max, position);
  }
}
