/**
 * Order-preserving selection of the elements of a sequence that satisfy a
 * predicate: what a pandas boolean mask (`df[mask]`) and `dropna` do to the
 * rows of a frame.
 */
module Selection {

  /** `a` can be obtained from `b` by deleting elements. */
  predicate IsSubsequence<T(==)>(a: seq<T>, b: seq<T>)
    decreases |b|
  {
    a == [] || (b != [] && ((a[0] == b[0] && IsSubsequence(a[1..], b[1..])) || IsSubsequence(a, b[1..])))
  }

  /** The elements of `s` satisfying `p`, in their original order; every kept element satisfies `p`. */
  function Keep<T>(s: seq<T>, p: T -> bool): (r: seq<T>)
    ensures |r| <= |s|
    ensures forall i :: 0 <= i < |r| ==> p(r[i])
  {
    if s == [] then [] else (if p(s[0]) then [s[0]] else []) + Keep(s[1..], p)
  }

  /** Every element satisfying `p` is kept as many times as it occurs in `s`; no other element is kept. */
  lemma {:induction false} KeepCount<T(!new)>(s: seq<T>, p: T -> bool)
    ensures forall x :: multiset(Keep(s, p))[x] == (if p(x) then multiset(s)[x] else 0)
    decreases |s|
  {
    if s != [] {
      KeepCount(s[1..], p);
      assert s == [s[0]] + s[1..];
    }
  }

  lemma {:induction false} KeepIsSubsequence<T(!new)>(s: seq<T>, p: T -> bool)
    ensures IsSubsequence(Keep(s, p), s)
  {
    if s != [] {
      var k := Keep(s[1..], p);
      KeepIsSubsequence(s[1..], p);
      if p(s[0]) {
        assert Keep(s, p) == [s[0]] + k;
        assert Keep(s, p)[1..] == k;
      } else {
        assert Keep(s, p) == k;
        if k != [] {
          SubsequenceDropHead(k, s);
        }
      }
    }
  }

  /** A subsequence of the tail is a subsequence of the whole. */
  lemma SubsequenceDropHead<T>(a: seq<T>, b: seq<T>)
    requires b != [] && IsSubsequence(a, b[1..])
    ensures IsSubsequence(a, b)
  {
  }

  lemma {:induction false} SubsequenceMultiset<T>(a: seq<T>, b: seq<T>)
    requires IsSubsequence(a, b)
    ensures multiset(a) <= multiset(b)
    decreases |b|
  {
    if a != [] {
      assert b == [b[0]] + b[1..];
      if a[0] == b[0] && IsSubsequence(a[1..], b[1..]) {
        SubsequenceMultiset(a[1..], b[1..]);
        assert a == [a[0]] + a[1..];
      } else {
        SubsequenceMultiset(a, b[1..]);
      }
    }
  }

  /**
   * `Keep` is the only subsequence of `s` holding every element that
   * satisfies `p` with its multiplicity and nothing else.
   */
  lemma {:induction false} KeepUnique<T(!new)>(s: seq<T>, p: T -> bool, r: seq<T>)
    requires IsSubsequence(r, s)
    requires forall x :: multiset(r)[x] == (if p(x) then multiset(s)[x] else 0)
    ensures r == Keep(s, p)
    decreases |s|
  {
    if s == [] {
      assert r == [];
    } else {
      var h, t := s[0], s[1..];
      assert s == [h] + t;
      if r == [] {
        KeepCount(s, p);
        assert multiset(Keep(s, p)) == multiset{};
      } else {
        assert r == [r[0]] + r[1..];
        if p(h) {
          if !(r[0] == h && IsSubsequence(r[1..], t)) {
            SubsequenceMultiset(r, t);
            assert false;
          }
          KeepUnique(t, p, r[1..]);
          assert Keep(s, p) == [h] + Keep(t, p);
        } else {
          assert r[0] in r;
          assert IsSubsequence(r, t);
          KeepUnique(t, p, r);
          assert Keep(s, p) == Keep(t, p);
        }
      }
    }
  }

  /** Selection distributes over concatenation, so relative order is preserved. */
  lemma {:induction false} KeepAppend<T(!new)>(a: seq<T>, b: seq<T>, p: T -> bool)
    ensures Keep(a + b, p) == Keep(a, p) + Keep(b, p)
    decreases |a|
  {
    if a == [] {
      assert a + b == b;
    } else {
      var ab := a + b;
      var h := if p(a[0]) then [a[0]] else [];
      assert ab[0] == a[0] && ab[1..] == a[1..] + b;
      assert Keep(ab, p) == h + Keep(ab[1..], p);
      assert Keep(a, p) == h + Keep(a[1..], p);
      KeepAppend(a[1..], b, p);
      assert Keep(ab, p) == h + (Keep(a[1..], p) + Keep(b, p));
    }
  }

  /** Selecting with a weaker predicate after a stronger one, or before it, is the stronger selection alone. */
  lemma {:induction false} KeepNested<T(!new)>(s: seq<T>, p: T -> bool, q: T -> bool)
    requires forall x :: p(x) ==> q(x)
    ensures Keep(Keep(s, p), q) == Keep(s, p)
    ensures Keep(Keep(s, q), p) == Keep(s, p)
    decreases |s|
  {
    if s != [] {
      KeepNested(s[1..], p, q);
      KeepAppend(if p(s[0]) then [s[0]] else [], Keep(s[1..], p), q);
      KeepAppend(if q(s[0]) then [s[0]] else [], Keep(s[1..], q), p);
    }
  }

  /** Selection depends only on which elements satisfy the predicate. */
  lemma {:induction false} KeepSamePredicate<T(!new)>(s: seq<T>, p: T -> bool, q: T -> bool)
    requires forall x :: p(x) == q(x)
    ensures Keep(s, p) == Keep(s, q)
    decreases |s|
  {
    if s != [] {
      KeepSamePredicate(s[1..], p, q);
    }
  }

  /** Nothing is removed exactly when every element already satisfies `p`. */
  lemma {:induction false} KeepAll<T(!new)>(s: seq<T>, p: T -> bool)
    ensures Keep(s, p) == s <==> forall x :: x in s ==> p(x)
    decreases |s|
  {
    if s != [] {
      KeepAll(s[1..], p);
      assert s == [s[0]] + s[1..];
    }
  }
}
