/** Order-preserving selections from a sequence. */
module Sequences {

  /** The elements of `s` that `keep` accepts, in their order in `s`. */
  function Filter<T>(s: seq<T>, keep: T -> bool): (r: seq<T>)
    ensures |r| <= |s|
  {
    if s == [] then []
    else (if keep(s[0]) then [s[0]] else []) + Filter(s[1..], keep)
  }

  /** `t` is `s` with zero or more elements that `keep` rejects deleted, and
      the remaining elements in their original relative order. */
  predicate Thinned<T(==)>(t: seq<T>, s: seq<T>, keep: T -> bool)
    decreases |s|
  {
    if s == [] then t == []
    else
      || (t != [] && t[0] == s[0] && Thinned(t[1..], s[1..], keep))
      || (!keep(s[0]) && Thinned(t, s[1..], keep))
  }

  /** An element is selected exactly when it occurs in `s` and is accepted. */
  lemma {:induction false} FilterMembers<T>(s: seq<T>, keep: T -> bool, x: T)
    ensures x in Filter(s, keep) <==> x in s && keep(x)
  {
    if s != [] {
      FilterMembers(s[1..], keep, x);
      assert s == [s[0]] + s[1..];
    }
  }

  /** The filtered sequence is a thinning of the input: only rejected elements go,
      order is kept. */
  lemma {:induction false} FilterThinned<T>(s: seq<T>, keep: T -> bool)
    ensures Thinned(Filter(s, keep), s, keep)
  {
    if s != [] {
      FilterThinned(s[1..], keep);
      if keep(s[0]) {
        assert Filter(s, keep)[1..] == Filter(s[1..], keep);
      } else {
        assert Filter(s, keep) == Filter(s[1..], keep);
      }
    }
  }

  /** Every sequence is a thinning of itself. */
  lemma {:induction false} ThinnedReflexive<T>(s: seq<T>, keep: T -> bool)
    ensures Thinned(s, s, keep)
  {
    if s != [] {
      ThinnedReflexive(s[1..], keep);
    }
  }

  /** Deleting one rejected element is a thinning. */
  lemma {:induction false} ThinnedDropOne<T>(s: seq<T>, i: nat, keep: T -> bool)
    requires i < |s| && !keep(s[i])
    ensures Thinned(s[..i] + s[i + 1..], s, keep)
  {
    var t := s[..i] + s[i + 1..];
    if i == 0 {
      assert t == s[1..];
      ThinnedReflexive(s[1..], keep);
    } else {
      ThinnedDropOne(s[1..], i - 1, keep);
      assert t[1..] == s[1..][..i - 1] + s[1..][i..];
    }
  }

  /** A thinning of a thinning is a thinning. */
  lemma {:induction false} ThinnedTransitive<T>(a: seq<T>, b: seq<T>, c: seq<T>, keep: T -> bool)
    requires Thinned(a, b, keep) && Thinned(b, c, keep)
    ensures Thinned(a, c, keep)
    decreases |c|
  {
    if c == [] {
    } else if !keep(c[0]) && Thinned(b, c[1..], keep) {
      ThinnedTransitive(a, b, c[1..], keep);
    } else {
      // b keeps c[0] as its head
      if a != [] && a[0] == b[0] && Thinned(a[1..], b[1..], keep) {
        ThinnedTransitive(a[1..], b[1..], c[1..], keep);
      } else {
        ThinnedTransitive(a, b[1..], c[1..], keep);
      }
    }
  }

  /** A thinning loses no accepted element: filtering it once more gives exactly
      the filtered input. */
  lemma {:induction false} ThinnedKeepsAccepted<T>(t: seq<T>, s: seq<T>, keep: T -> bool)
    requires Thinned(t, s, keep)
    ensures Filter(t, keep) == Filter(s, keep)
    decreases |s|
  {
    if s != [] {
      if t != [] && t[0] == s[0] && Thinned(t[1..], s[1..], keep) {
        ThinnedKeepsAccepted(t[1..], s[1..], keep);
        assert t == [t[0]] + t[1..];
      } else {
        ThinnedKeepsAccepted(t, s[1..], keep);
      }
    }
  }

  /** Filtering distributes over concatenation. */
  lemma {:induction false} FilterConcat<T>(a: seq<T>, b: seq<T>, keep: T -> bool)
    ensures Filter(a + b, keep) == Filter(a, keep) + Filter(b, keep)
  {
    if a == [] {
      assert a + b == b;
    } else {
      var ab, head := a + b, if keep(a[0]) then [a[0]] else [];
      assert ab[0] == a[0] && ab[1..] == a[1..] + b;
      FilterConcat(a[1..], b, keep);
      assert Filter(ab, keep) == head + (Filter(a[1..], keep) + Filter(b, keep));
      assert Filter(a, keep) == head + Filter(a[1..], keep);
    }
  }

  /** Every element of a thinning occurs in the sequence it was thinned from. */
  lemma {:induction false} ThinnedSubset<T>(t: seq<T>, s: seq<T>, keep: T -> bool, x: T)
    requires Thinned(t, s, keep) && x in t
    ensures x in s
    decreases |s|
  {
    if t != [] && t[0] == s[0] && Thinned(t[1..], s[1..], keep) {
      if x != t[0] {
        assert t == [t[0]] + t[1..];
        ThinnedSubset(t[1..], s[1..], keep, x);
      }
    } else {
      ThinnedSubset(t, s[1..], keep, x);
    }
  }
}
