/** Facts about sets and sequences that several modules use. */
module Collections {

  lemma SubsetSize<T>(a: set<T>, b: set<T>)
    requires a <= b
    ensures |a| <= |b| && (|a| == |b| ==> a == b)
  {
    assert |b - a| == |b| - |a| by {
      assert b == a + (b - a);
    }
  }

  lemma SplitOne<T>(s: seq<T>, i: nat)
    requires i < |s|
    ensures s == s[..i] + [s[i]] + s[i + 1..]
  {
  }

  lemma PrefixNext<T>(s: seq<T>, i: nat)
    requires i < |s|
    ensures s[..i + 1] == s[..i] + [s[i]]
  {
  }

  /** One element taken out of a sequence. */
  lemma Extract<T>(s: seq<T>, k: nat)
    requires k < |s|
    ensures multiset(s) == multiset(s[..k] + s[k + 1..]) + multiset{s[k]}
    ensures multiset(s[..k] + s[k + 1..]) == multiset(s) - multiset{s[k]}
  {
    SplitOne(s, k);
  }

  // ---------------------------------------------------------------------------------------------
  // Sums over the numbers below a bound
  // ---------------------------------------------------------------------------------------------

  ghost function Total(f: nat -> nat, n: nat): nat {
    if n == 0 then 0 else Total(f, n - 1) + f(n - 1)
  }

  /** Changing one summand changes the sum by as much. */
  lemma {:induction false} TotalOne(f: nat -> nat, g: nat -> nat, n: nat, p: nat)
    requires forall q: nat | q != p :: f(q) == g(q)
    ensures Total(g, n) + (if p < n then f(p) else 0) == Total(f, n) + (if p < n then g(p) else 0)
    decreases n
  {
    if n > 0 {
      TotalOne(f, g, n - 1, p);
    }
  }

  lemma {:induction false} TotalAtMost(f: nat -> nat, n: nat, most: nat)
    requires forall q: nat :: f(q) <= most
    ensures Total(f, n) <= n * most
    decreases n
  {
    if n > 0 {
      TotalAtMost(f, n - 1, most);
    }
  }

  lemma {:induction false} TotalZero(f: nat -> nat, n: nat, p: nat)
    requires p < n && Total(f, n) == 0
    ensures f(p) == 0
    decreases n
  {
    if p < n - 1 {
      TotalZero(f, n - 1, p);
    }
  }

  /** Two numbers as one, the first weighing more, for second numbers below the scale. */
  ghost function Pair(first: nat, second: nat, scale: nat): nat {
    first * scale + second
  }

  lemma PairSmaller(a: nat, b: nat, x: nat, y: nat, scale: nat)
    requires x < scale && (a < b || (a == b && x < y))
    ensures Pair(a, x, scale) < Pair(b, y, scale)
  {
    if a < b {
      assert (a + 1) * scale <= b * scale;
    }
  }
}
