/** The order of words the C++ standard library uses: lexicographic on characters. */
module Words {

  predicate Before(a: string, b: string)
    decreases |a|
  {
    b != [] && (a == [] || a[0] < b[0] || (a[0] == b[0] && Before(a[1..], b[1..])))
  }

  /** Words are compared at the first place where they differ; a word comes after its own beginnings. */
  lemma {:induction false} BeforeMeans(a: string, b: string)
    ensures Before(a, b) <==> (a <= b && a != b) || exists k :: DifferAt(a, b, k) && a[k] < b[k]
    decreases |a|
  {
    forall k | DifferAt(a, b, k) && k > 0
      ensures a[0] == b[0]
    {
      DifferLater(a, b, k);
    }
    if a != [] && b != [] && a[0] == b[0] {
      BeforeMeans(a[1..], b[1..]);
      assert a == [a[0]] + a[1..] && b == [b[0]] + b[1..];
      if k :| DifferAt(a[1..], b[1..], k) && a[1..][k] < b[1..][k] {
        assert a[..k + 1] == [a[0]] + a[1..][..k] && b[..k + 1] == [b[0]] + b[1..][..k];
        assert DifferAt(a, b, k + 1);
      }
      if k :| DifferAt(a, b, k) && a[k] < b[k] {
        assert a[1..][..k - 1] == a[..k][1..] && b[1..][..k - 1] == b[..k][1..];
        assert DifferAt(a[1..], b[1..], k - 1);
      }
    } else if a != [] && b != [] {
      assert DifferAt(a, b, 0);
    }
  }

  lemma DifferLater(a: string, b: string, k: int)
    requires DifferAt(a, b, k) && k > 0
    ensures a[0] == b[0]
  {
    assert a[..k][0] == a[0] && b[..k][0] == b[0];
  }

  ghost predicate DifferAt(a: string, b: string, k: int) {
    0 <= k < |a| && k < |b| && a[..k] == b[..k] && a[k] != b[k]
  }

  lemma {:induction false} BeforeIsTransitive(a: string, b: string, c: string)
    requires Before(a, b) && Before(b, c)
    ensures Before(a, c)
    decreases |a|
  {
    if a != [] && a[0] == b[0] && b[0] == c[0] {
      BeforeIsTransitive(a[1..], b[1..], c[1..]);
    }
  }

  lemma {:induction false} BeforeIsTotal(a: string, b: string)
    ensures a == b || Before(a, b) || Before(b, a)
    decreases |a|
  {
    if a != [] && b != [] && a[0] == b[0] {
      BeforeIsTotal(a[1..], b[1..]);
      if a[1..] == b[1..] {
        assert a == [a[0]] + a[1..];
        assert b == [b[0]] + b[1..];
      }
    }
  }

  lemma {:induction false} BeforeIsIrreflexive(a: string)
    ensures !Before(a, a)
    decreases |a|
  {
    if a != [] {
      BeforeIsIrreflexive(a[1..]);
    }
  }

  /** A word never comes before one of its prefixes. */
  lemma {:induction false} PrefixIsNotAfter(a: string, b: string)
    requires a <= b
    ensures !Before(b, a)
    decreases |a|
  {
    if a != [] {
      PrefixIsNotAfter(a[1..], b[1..]);
    }
  }

  /** Past a word that is beyond `a` without starting with it, no word starts with `a`. */
  lemma {:induction false} NoPrefixBeyond(a: string, b: string, c: string)
    requires Before(a, b) && !(a <= b) && Before(b, c)
    ensures Before(a, c) && !(a <= c)
    decreases |a|
  {
    if a != [] && a[0] == b[0] && b[0] == c[0] {
      assert a[1..] <= b[1..] ==> a <= b;
      NoPrefixBeyond(a[1..], b[1..], c[1..]);
    }
  }
}
