/** `FilesAtPath`: the prefix listing, its keep pass and its optional filter pass.

    The filter pass deletes rejected entries from the result slice while ranging over
    it. In Go the range runs over a fixed copy of the slice header, so it visits
    indices 0 .. n-1 of the ORIGINAL length n and reads each element from the shared
    backing array, and `append(result[:i], result[i+1:]...)` shifts the tail of that
    same array left by one in place. The model keeps exactly that: a backing array, the
    current length, and a panic when `result[i+1:]` is out of range. */
module Listing {
  import opened Outcomes
  import opened Metadata
  import opened Sequences

  /** What the storage client's prefix enumeration did: either the client could not be
      created, or the iterator yielded `items` and then stopped with `iterator.Done`
      (`failure == None`) or with an error. */
  datatype Enumeration =
    | ClientFailed(msg: string)
    | Enumerated(items: seq<FileMetadata>, failure: Option<string>)

  /** A returned slice, a returned error, or a run-time panic. */
  datatype ListOutcome = Listed(files: seq<FileMetadata>) | Failed(error: Error) | Panicked

  /** The state of the filter pass when the range loop ends: it panicked, or it
      finished with this backing array and this slice length. */
  datatype Sweep<T> = Panic | Done(backing: seq<T>, len: nat)

  /** The backing array after `append(b[:i], b[i+1:len]...)`: the elements after `i`
      move one place left, and the old last element stays behind as a stale copy. */
  function Removed<T>(b: seq<T>, i: nat, len: nat): (r: seq<T>)
    requires i < len <= |b|
    ensures |r| == |b|
    ensures r[..len - 1] == b[..len][..i] + b[..len][i + 1..]
  {
    b[..i] + b[i + 1..len] + b[len - 1..]
  }

  /** The range loop from index `i` to `n` over backing array `b` whose slice currently
      has length `len`; `keep` is the filter. */
  function RangeRemove<T>(b: seq<T>, len: nat, i: nat, n: nat, keep: T -> bool): (r: Sweep<T>)
    requires len <= |b| && i <= n <= |b|
    ensures r.Done? ==> |r.backing| == |b| && r.len <= len
    decreases n - i
  {
    if i == n then Done(b, len)
    else if keep(b[i]) then RangeRemove(b, len, i + 1, n, keep)
    else if len < i + 1 then Panic  // result[i+1:] with i+1 > len(result)
    else RangeRemove(Removed(b, i, len), len - 1, i + 1, n, keep)
  }

  /** Whenever the loop finishes, its slice is the starting slice with some rejected
      entries deleted and the rest in their original order. */
  lemma {:induction false} SweepThins<T>(b: seq<T>, len: nat, i: nat, n: nat, keep: T -> bool)
    requires len <= |b| && i <= n <= |b|
    ensures var r := RangeRemove(b, len, i, n, keep);
      r.Done? ==> Thinned(r.backing[..r.len], b[..len], keep)
    decreases n - i
  {
    var r := RangeRemove(b, len, i, n, keep);
    if i == n {
      ThinnedReflexive(b[..len], keep);
    } else if keep(b[i]) {
      SweepThins(b, len, i + 1, n, keep);
    } else if i + 1 <= len {
      var shifted := Removed(b, i, len);
      SweepThins(shifted, len - 1, i + 1, n, keep);
      ThinnedDropOne(b[..len], i, keep);
      if r.Done? {
        ThinnedTransitive(r.backing[..r.len], shifted[..len - 1], b[..len], keep);
      }
    }
  }

  /** A filter that accepts every visited entry removes nothing. */
  lemma {:induction false} SweepAcceptAll<T>(b: seq<T>, len: nat, i: nat, n: nat, keep: T -> bool)
    requires len <= |b| && i <= n <= |b|
    requires forall k :: i <= k < n ==> keep(b[k])
    ensures RangeRemove(b, len, i, n, keep) == Done(b, len)
    decreases n - i
  {
    if i < n {
      SweepAcceptAll(b, len, i + 1, n, keep);
    }
  }

  /** Two entries that are both rejected make the loop panic: after the first removal
      the slice has length 1, the stale copy at index 1 is read and rejected, and
      `result[2:]` is out of range. */
  lemma TwoRejectedPanic<T>(x: T, y: T, keep: T -> bool)
    requires !keep(x) && !keep(y)
    ensures RangeRemove([x, y], 2, 0, 2, keep) == Panic
  {
  }

  /** The entry that slides into index `i` after a removal is never tested: with
      `[a, b, c]`, rejecting `a` and `b` and accepting `c`, the result is `[b, c]`
      and not `[c]`, the entries the filter accepts. */
  lemma SweepSkipsAfterRemoval<T>(a: T, b: T, c: T, keep: T -> bool)
    requires !keep(a) && !keep(b) && keep(c)
    ensures var r := RangeRemove([a, b, c], 3, 0, 3, keep);
      && r.Done? && r.backing[..r.len] == [b, c]
      && Filter([a, b, c], keep) == [c]
  {
    assert Removed([a, b, c], 0, 3) == [b, c, c];
    assert RangeRemove([b, c, c], 2, 1, 3, keep) == Done([b, c, c], 2);
    assert [a, b, c][1..] == [b, c] && [b, c][1..] == [c] && [c][1..] == [];
    assert Filter([c], keep) == [c] + Filter([], keep);
    assert Filter([b, c], keep) == Filter([c], keep);
  }

  /** The outcome of `FilesAtPath(bucket, path, filters...)` for a given enumeration.
      Only the first filter is consulted, as `filter[0]` in the source. */
  function ListingOf(e: Enumeration, filters: seq<FileMetadata -> bool>): (r: ListOutcome)
    ensures r.Failed? <==> e.ClientFailed? || e.failure.Some?
    ensures r.Panicked? ==> |filters| > 0
    ensures e.Enumerated? && e.failure.None? && |filters| == 0 ==>
      r == Listed(Filter(e.items, HasLeafName))
  {
    match e
    case ClientFailed(msg) => Failed(StorageError(NewClient, Transport(msg)))
    case Enumerated(items, failure) =>
      if failure.Some? then Failed(StorageError(Objects, Transport(failure.value)))
      else
        var kept := Filter(items, HasLeafName);
        if |filters| == 0 then Listed(kept)
        else
          match RangeRemove(kept, |kept|, 0, |kept|, filters[0])
          case Panic => Panicked
          case Done(backing, len) => Listed(backing[..len])
  }

  /** A filter that accepts every listed entry gives back the keep-pass list. */
  lemma ListingAcceptAll(e: Enumeration, filters: seq<FileMetadata -> bool>)
    requires e.Enumerated? && e.failure.None? && |filters| > 0
    requires forall x :: x in e.items && HasLeafName(x) ==> filters[0](x)
    ensures ListingOf(e, filters) == Listed(Filter(e.items, HasLeafName))
  {
    var kept := Filter(e.items, HasLeafName);
    forall k | 0 <= k < |kept|
      ensures filters[0](kept[k])
    {
      FilterMembers(e.items, HasLeafName, kept[k]);
    }
    SweepAcceptAll(kept, |kept|, 0, |kept|, filters[0]);
  }

  /** What a filtered listing does guarantee: every returned entry was enumerated and
      has a leaf name, the returned list is the keep-pass list with only rejected
      entries removed and the order kept, and no accepted entry is lost. */
  lemma ListingThinned(e: Enumeration, filters: seq<FileMetadata -> bool>)
    requires e.Enumerated? && |filters| > 0
    ensures var r := ListingOf(e, filters);
      var kept := Filter(e.items, HasLeafName);
      r.Listed? ==>
        && Thinned(r.files, kept, filters[0])
        && Filter(r.files, filters[0]) == Filter(kept, filters[0])
        && forall x :: x in r.files ==> x in e.items && HasLeafName(x)
  {
    var r := ListingOf(e, filters);
    var kept := Filter(e.items, HasLeafName);
    if r.Listed? {
      SweepThins(kept, |kept|, 0, |kept|, filters[0]);
      assert kept[..|kept|] == kept;
      ThinnedKeepsAccepted(r.files, kept, filters[0]);
      forall x | x in r.files
        ensures x in e.items && HasLeafName(x)
      {
        ThinnedSubset(r.files, kept, filters[0], x);
        FilterMembers(e.items, HasLeafName, x);
      }
    }
  }

  /** `result = append(result[:i], result[i+1:]...)` on the backing array `a` of a slice
      of length `len`. */
  method RemoveAt<T>(a: array<T>, i: nat, len: nat)
    requires i < len <= a.Length
    modifies a
    ensures a[..] == Removed(old(a[..]), i, len)
  {
    var k := i;
    while k + 1 < len
      invariant i <= k < len
      invariant forall j :: 0 <= j < a.Length ==>
        a[j] == if i <= j < k then old(a[j + 1]) else old(a[j])
    {
      a[k] := a[k + 1];
      k := k + 1;
    }
    assert forall j :: 0 <= j < a.Length ==> a[..][j] == Removed(old(a[..]), i, len)[j];
  }

  /** The filter pass of `FilesAtPath` over the first `n` elements of `a`, as Go runs it. */
  method FilterPass<T>(a: array<T>, n: nat, keep: T -> bool) returns (len: nat, panicked: bool)
    requires n <= a.Length
    modifies a
    ensures var sweep := RangeRemove(old(a[..]), n, 0, n, keep);
      && panicked == sweep.Panic?
      && (!panicked ==> a[..] == sweep.backing && len == sweep.len)
  {
    len, panicked := n, false;
    var i := 0;
    while i < n
      invariant i <= n && len <= a.Length
      invariant RangeRemove(a[..], len, i, n, keep) == RangeRemove(old(a[..]), n, 0, n, keep)
    {
      var entry := a[i];
      if !keep(entry) {
        if len < i + 1 {
          panicked := true;
          return;
        }
        RemoveAt(a, i, len);
        len := len - 1;
      }
      i := i + 1;
    }
  }

  /** Appends, in order, every element of `s` that `keep` accepts to a fresh list. */
  method Retain<T>(s: seq<T>, keep: T -> bool) returns (result: seq<T>)
    ensures result == Filter(s, keep)
  {
    result := [];
    for k := 0 to |s|
      invariant result == Filter(s[..k], keep)
    {
      assert s[..k + 1] == s[..k] + [s[k]];
      FilterConcat(s[..k], [s[k]], keep);
      if keep(s[k]) {
        result := result + [s[k]];
      }
    }
    assert s[..|s|] == s;
  }

  /** `FilesAtPath` as written: the keep pass, then the in-place filter pass. */
  method FilesAtPath(e: Enumeration, filters: seq<FileMetadata -> bool>) returns (r: ListOutcome)
    ensures r == ListingOf(e, filters)
  {
    match e
    case ClientFailed(msg) =>
      r := Failed(StorageError(NewClient, Transport(msg)));
    case Enumerated(items, failure) =>
      var result := Retain(items, HasLeafName);
      if failure.Some? {
        return Failed(StorageError(Objects, Transport(failure.value)));
      }
      if |filters| > 0 {
        var a := new FileMetadata[|result|](k requires 0 <= k < |result| => result[k]);
        assert a[..] == result;
        var len, panicked := FilterPass(a, |result|, filters[0]);
        if panicked {
          return Panicked;
        }
        result := a[..len];
      }
      r := Listed(result);
  }

  /** `FilesAtPath` with the filter pass building a fresh list instead of deleting in
      place: the result is exactly the listed entries the filter accepts, in order. */
  method FilesAtPathCorrected(e: Enumeration, filters: seq<FileMetadata -> bool>) returns (r: ListOutcome)
    ensures r.Failed? <==> e.ClientFailed? || e.failure.Some?
    ensures !r.Panicked?
    ensures r.Listed? && |filters| == 0 ==> r.files == Filter(e.items, HasLeafName)
    ensures r.Listed? && |filters| > 0 ==>
      && r.files == Filter(Filter(e.items, HasLeafName), filters[0])
      && forall x :: x in r.files <==> x in e.items && HasLeafName(x) && filters[0](x)
  {
    match e
    case ClientFailed(msg) =>
      r := Failed(StorageError(NewClient, Transport(msg)));
    case Enumerated(items, failure) =>
      var result := Retain(items, HasLeafName);
      if failure.Some? {
        return Failed(StorageError(Objects, Transport(failure.value)));
      }
      if |filters| > 0 {
        var kept := result;
        result := Retain(kept, filters[0]);
        forall x
          ensures x in result <==> x in items && HasLeafName(x) && filters[0](x)
        {
          FilterMembers(kept, filters[0], x);
          FilterMembers(items, HasLeafName, x);
        }
      }
      r := Listed(result);
  }
}
