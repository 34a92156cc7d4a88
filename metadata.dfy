/** Object names, their slash-separated segments and the listing's metadata view. */
module Metadata {

  /** The character that separates the segments of an object name. */
  const Separator: char := '/'

  /** `strings.Join(parts, "/")`. */
  function Join(parts: seq<string>): (s: string)
    requires |parts| >= 1
  {
    if |parts| == 1 then parts[0] else parts[0] + [Separator] + Join(parts[1..])
  }

  /** `strings.Split(s, "/")`: the maximal runs between separators, left to right.
      There is always at least one segment (the empty name splits into [""]). */
  function Split(s: string): (parts: seq<string>)
    ensures |parts| >= 1
    ensures forall k :: 0 <= k < |parts| ==> Separator !in parts[k]
    ensures Join(parts) == s
  {
    if s == [] then [""]
    else
      var rest := Split(s[1..]);
      if s[0] == Separator then
        assert s == [Separator] + s[1..];
        [""] + rest
      else
        assert Join([[s[0]] + rest[0]] + rest[1..]) == s by {
          if |rest| > 1 {
            assert ([[s[0]] + rest[0]] + rest[1..])[1..] == rest[1..];
          }
          assert s == [s[0]] + s[1..];
        }
        [[s[0]] + rest[0]] + rest[1..]
  }

  /** One step of `Split`: a leading separator starts a new empty segment, any other
      character joins the front of the first segment. */
  lemma SplitStep(s: string)
    requires s != []
    ensures var rest := Split(s[1..]);
      Split(s) == if s[0] == Separator then [""] + rest else [[s[0]] + rest[0]] + rest[1..]
  {
  }

  /** Splitting a joined list of slash-free segments gives the segments back. */
  lemma {:induction false} SplitJoin(parts: seq<string>)
    requires |parts| >= 1
    requires forall k :: 0 <= k < |parts| ==> Separator !in parts[k]
    ensures Split(Join(parts)) == parts
  {
    if |parts| == 1 {
      SplitSegment(parts[0], []);
      assert parts[0] + [] == parts[0];
    } else {
      var tail := parts[1..];
      var q := [Separator] + Join(tail);
      assert forall k :: 0 <= k < |tail| ==> Separator !in tail[k] by {
        forall k | 0 <= k < |tail| ensures Separator !in tail[k] {
          assert tail[k] == parts[k + 1];
        }
      }
      SplitJoin(tail);
      SplitAfterSeparator(Join(tail));
      assert Split(q)[0] == "" && Split(q)[1..] == tail;
      JoinStep(parts);
      SplitSegment(parts[0], q);
      assert parts[0] + "" == parts[0];
      assert [parts[0]] + tail == parts;
    }
  }

  /** One step of `Join`: the first segment, a separator, then the rest joined. */
  lemma JoinStep(parts: seq<string>)
    requires |parts| > 1
    ensures Join(parts) == parts[0] + ([Separator] + Join(parts[1..]))
  {
  }

  /** A leading separator splits off an empty first segment. */
  lemma SplitAfterSeparator(tail: string)
    ensures Split([Separator] + tail) == [""] + Split(tail)
  {
    var q := [Separator] + tail;
    assert q[1..] == tail;
    SplitStep(q);
  }

  /** A slash-free text in front of `tail` becomes the front of the first segment. */
  lemma {:induction false} SplitSegment(x: string, tail: string)
    requires Separator !in x
    ensures var p, q := Split(x + tail), Split(tail);
      p == [x + q[0]] + q[1..]
  {
    if x == [] {
      var q := Split(tail);
      assert x + tail == tail;
      assert x + q[0] == q[0];
      assert q == [q[0]] + q[1..];
    } else {
      var y, q := x + tail, Split(tail);
      assert y[0] == x[0] && y[0] != Separator && y[1..] == x[1..] + tail by {
        assert x[0] in x;
      }
      SplitSegment(x[1..], tail);
      var rest := Split(y[1..]);
      assert rest[0] == x[1..] + q[0] && rest[1..] == q[1..];
      SplitStep(y);
      assert [x[0]] + (x[1..] + q[0]) == x + q[0];
    }
  }

  /** The leaf name: the last segment of the split name. */
  function LeafName(name: string): (leaf: string)
    ensures Separator !in leaf
  {
    var parts := Split(name);
    parts[|parts| - 1]
  }

  /** Joining peels off the last segment behind the last separator. */
  lemma {:induction false} JoinLast(parts: seq<string>)
    requires |parts| > 1
    ensures Join(parts) == Join(parts[..|parts| - 1]) + [Separator] + parts[|parts| - 1]
  {
    if |parts| > 2 {
      JoinLast(parts[1..]);
      assert parts[1..][..|parts| - 2] == parts[..|parts| - 1][1..];
    }
  }

  /** `FileName` returns the text after the last separator: a suffix of the name that
      is either the whole name or starts right after a separator (and, by `LeafName`'s
      contract, contains no separator). */
  lemma LeafNameIsTextAfterLastSlash(name: string)
    ensures var leaf := LeafName(name);
      && |leaf| <= |name| && name[|name| - |leaf|..] == leaf
      && (|leaf| == |name| || name[|name| - |leaf| - 1] == Separator)
  {
    var parts := Split(name);
    var leaf := parts[|parts| - 1];
    if |parts| > 1 {
      JoinLast(parts);
      var front := Join(parts[..|parts| - 1]) + [Separator];
      assert name == front + leaf;
      assert name[|front|..] == leaf;
      assert name[|front| - 1] == Separator;
    }
  }

  /** A name without a separator is its own leaf name. */
  lemma LeafNameOfUnslashedName(name: string)
    requires Separator !in name
    ensures LeafName(name) == name
  {
    LeafNameIsTextAfterLastSlash(name);
    assert forall j :: 0 <= j < |name| ==> name[j] != Separator;
  }

  /** The leaf name is empty exactly when the name is empty or ends in a separator. */
  lemma LeafNameEmptyIff(name: string)
    ensures LeafName(name) == "" <==> name == "" || name[|name| - 1] == Separator
  {
    LeafNameIsTextAfterLastSlash(name);
    var leaf := LeafName(name);
    assert leaf != "" ==> leaf[|leaf| - 1] == name[|name| - 1];
  }

  /** `FileMetadata`: the listed object's attributes (only those the model needs). */
  datatype FileMetadata = FileMetadata(bucket: string, name: string, size: nat) {

    /** `FileMetadata.FileName`: the last slash-separated segment of the object name,
        empty exactly for an empty name or one that ends in a separator. */
    function FileName(): (leaf: string)
      ensures Separator !in leaf
      ensures leaf == "" <==> name == "" || name[|name| - 1] == Separator
    {
      LeafNameEmptyIff(name);
      LeafName(name)
    }
  }

  /** The keep-pass test of `FilesAtPath`: the entry has a non-empty leaf name, that
      is, its name is neither empty nor a "directory" ending in a separator. */
  predicate HasLeafName(entry: FileMetadata)
    ensures HasLeafName(entry) <==> entry.name != "" && entry.name[|entry.name| - 1] != Separator
  {
    entry.FileName() != ""
  }
}
