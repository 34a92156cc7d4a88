# cloudstorage helpers, modelled in Dafny

This project models `google/cloudstorage.go`. That file is a thin Go helper layer over
Google Cloud Storage. It covers:

- the leaf name of an object (`FileMetadata.FileName`);
- the prefix listing `FilesAtPath`, with its keep pass and its optional filter pass;
- the blob helpers `PutFile`, `GetFile`, `Exists` and `FileMetadata.Get`;
- the transforms `ProcessFile` and `ProcessAndUpdateFile`.

Files:

- `outcomes.dfy` (module `Outcomes`): `Option`, `Result`, and the errors the helpers
  return. A storage error is the client step that failed plus the client's cause
  ("object does not exist" or a transport failure). A callback error is returned
  unchanged.
- `metadata.dfy` (module `Metadata`): `strings.Split` and `strings.Join` on `/`,
  `LeafName`, and the `FileMetadata` record with its `FileName`.
- `sequences.dfy` (module `Sequences`): `Filter`, which keeps the accepted elements in
  order, and `Thinned(t, s, keep)`, which says that `t` is `s` with only rejected
  elements deleted, in the original order.
- `listing.dfy` (module `Listing`): the two passes of `FilesAtPath` and the whole
  function. The filter pass follows Go's semantics:
  - the range visits indices `0 .. n-1` of the starting length `n`;
  - each round reads `result[i]` from the shared backing array;
  - `append(result[:i], result[i+1:]...)` shifts the tail left in place, leaving a stale
    copy of the old last element;
  - `result[i+1:]` panics when `i+1` exceeds the current length.

  `RangeRemove` states this on values. `FilterPass` runs it on an `array` and is proved
  equal to `RangeRemove`.
- `storage.dfy` (module `Storage`): a `Store` class whose field `objects` maps
  (bucket, path) to bytes, with the blob and transform helpers as methods. Two client
  methods restate the repository's integration tests as proofs; a third proves that
  the identity callback leaves the store unchanged.

The storage client is replaced by the map. Whether a client call fails is a parameter of
each call: a `WriteFault` for uploads and a `ReadFault` for downloads. A failed
`Writer.Close` carries whether the final request had already been committed (a lost
response, or the timeout running out after the commit). In that case the object is
replaced even though `PutFile` returns the Close error. The listing takes
the client's enumeration as input: the objects the iterator yields, then either
`iterator.Done` or an error. Callbacks are Dafny function values.

The doc comment of `FilesAtPath` (google/cloudstorage.go:106-107) promises a filtered
result; the code does not deliver it (see "## Findings").

## Model

| member | source | states |
|---|---|---|
| Metadata.Split | google/cloudstorage.go:97 | there is always at least one segment, no segment contains `/`, and joining the segments with `/` gives back the name |
| Metadata.SplitJoin | google/cloudstorage.go:97 | splitting slash-free segments joined with `/` gives back exactly those segments |
| Metadata.LeafName | google/cloudstorage.go:96-99 | the leaf name never contains `/` |
| Metadata.LeafNameIsTextAfterLastSlash | google/cloudstorage.go:96-99 | the leaf name is a suffix of the name that is either the whole name or starts right after a `/`; since it contains no `/` (`LeafName`), it is the text after the last `/` |
| Metadata.LeafNameOfUnslashedName | google/cloudstorage.go:96-99 | a name without `/` is its own leaf name, as the listing test expects for an unslashed object name |
| Metadata.LeafNameEmptyIff | google/cloudstorage.go:97-98 | the leaf name is empty exactly when the name is empty or ends in `/` |
| Metadata.FileMetadata.FileName | google/cloudstorage.go:96-99 | the entry's file name is its name's leaf name: it contains no `/`, and it is empty exactly when the name is empty or ends in `/` |
| Metadata.HasLeafName | google/cloudstorage.go:131 | the keep test accepts an entry exactly when its name is non-empty and does not end in `/` |
| Sequences.FilterMembers | google/cloudstorage.go:130-133 | an entry is kept exactly when it was enumerated and passes the test |
| Sequences.FilterThinned | google/cloudstorage.go:130-133 | the kept entries keep their enumeration order, and only rejected entries are dropped |
| Sequences.ThinnedDropOne | google/cloudstorage.go:141 | deleting one rejected entry keeps the others in their relative order |
| Sequences.ThinnedKeepsAccepted | google/cloudstorage.go:137-143 | a list made from another only by deleting rejected entries still holds every accepted entry, in order |
| Listing.Retain | google/cloudstorage.go:122-134 | the append loop returns exactly the entries its test accepts, in order; with `HasLeafName` this is the keep pass |
| Listing.Removed | google/cloudstorage.go:141 | one `append(result[:i], result[i+1:]...)` keeps the backing array's length, and the live slice loses exactly the element at `i` |
| Listing.RemoveAt | google/cloudstorage.go:141 | the in-place shift leaves the backing array exactly as `Removed` says |
| Listing.RangeRemove | google/cloudstorage.go:137-143 | the range loop never reallocates the backing array and never lengthens the slice |
| Listing.FilterPass | google/cloudstorage.go:137-143 | the array loop panics exactly when `RangeRemove` does, and otherwise ends with the same backing array and length |
| Listing.SweepThins | google/cloudstorage.go:137-143 | a filter pass that does not panic returns the keep-pass list with only rejected entries removed, in the original order |
| Listing.SweepAcceptAll | google/cloudstorage.go:137-143 | if the filter accepts every visited entry, the pass removes nothing |
| Listing.TwoRejectedPanic | google/cloudstorage.go:137-143 | two entries that are both rejected make the pass panic |
| Listing.SweepSkipsAfterRemoval | google/cloudstorage.go:137-143 | for `[a, b, c]`, rejecting `a` and `b` and accepting `c`, the pass returns `[b, c]`, while the accepted entries are `[c]` |
| Listing.ListingOf | google/cloudstorage.go:109-146 | the listing fails exactly when the client or the iterator fails; only a filter can make it panic; without a filter it returns the keep-pass list unchanged |
| Listing.ListingAcceptAll | google/cloudstorage.go:136-144 | a filter that accepts every listed entry returns the keep-pass list unchanged |
| Listing.ListingThinned | google/cloudstorage.go:136-144 | a filtered listing that does not panic is the keep-pass list with only rejected entries removed, in order; it loses no accepted entry; every returned entry was enumerated and has a leaf name |
| Listing.FilesAtPath | google/cloudstorage.go:109-146 | the keep pass, then the in-place filter pass on an array, give exactly the outcome `ListingOf` describes |
| Listing.FilesAtPathCorrected | google/cloudstorage.go:106-108 | with the filter pass building a fresh list, the result is exactly the listed entries the filter accepts, in order, and it never panics |
| Storage.WriteError | google/cloudstorage.go:27-46 | an upload reports no error exactly when every client step succeeds |
| Storage.Fetch | google/cloudstorage.go:50-73 | a download succeeds exactly when the client works and the object exists, and it returns the stored bytes; a missing object gives "object does not exist" from `NewReader` |
| Storage.Store.PutFile | google/cloudstorage.go:27-46 | returns the error of the first failing client step; when the upload commits (on success, or a Close error after the commit) the object holds exactly the data and nothing else changes; otherwise nothing changes |
| Storage.Store.GetFile | google/cloudstorage.go:50-73 | returns what `Fetch` says for the current store |
| Storage.Store.Exists | google/cloudstorage.go:77-88 | false exactly when the object is missing |
| Storage.Store.GetEntry | google/cloudstorage.go:101-104 | downloading a listed entry returns its stored bytes exactly when the client works and the object exists |
| Storage.Store.ProcessFile | google/cloudstorage.go:151-157 | returns the download's error if the download fails; otherwise the callback's error, passed on unchanged, or no error when the callback succeeds; it cannot write the store |
| Storage.Store.ProcessAndUpdateFile | google/cloudstorage.go:162-172 | a failed download or callback returns that error and writes nothing; otherwise it returns the upload's error, and when the upload commits only the object at (bucket, path) changes, to the callback's output |
| Storage.PutThenGet | google/cloudstorage_test.go:120-126 | `PutFile` reports no error exactly when every step succeeds; after an upload that commits, `Exists` is true and `GetFile` returns exactly the data written; an upload that does not commit changes nothing |
| Storage.UpdateThenGet | google/cloudstorage_test.go:143-153 | after a successful `ProcessAndUpdateFile`, `GetFile` returns the callback's output for the old bytes |
| Storage.UpdateWithIdentity | google/cloudstorage.go:162-172 | `ProcessAndUpdateFile` with the identity callback leaves the store unchanged, whatever fails |

## Left out

- `SaveNetworkFile` (google/cloudstorage.go:176-197): an HTTP GET followed by `PutFile`. The network is outside the model.
- `Zip` and `UnZip` (google/cloudstorage.go:201-241): all encoding and decoding is done by Go's `archive/zip`. `Zip` also iterates a Go map in unspecified order.
- The storage client itself is replaced by a map and per-call fault parameters. This covers client construction, writers, readers, `Attrs` and the paginated `Objects` iterator.
- The timeouts (`Timeout`, the 30-second listing deadline) and context cancellation: wall-clock time is not modelled. A timeout is just one more transport failure.
- Logging (`log.Printf` after a put or a get).
- Storage.Store.PutFile: a failure of `storage.NewClient` or `io.Copy` is modelled as writing nothing, because the object is only replaced when the writer is closed. A Close error leaves the object either unchanged or fully replaced, as the fault's `committed` flag says. A partially written object is not modelled.
- Storage.Store.Exists: does not model the `log.Panic` on an `Attrs` error other than "object does not exist". It also does not model the nil-client panic after a `storage.NewClient` failure, whose error `Exists` ignores. Both are transport failures, which the map cannot produce.
- Error texts: an error is modelled as the failing step plus the client's cause. The model does not capture that `fmt.Errorf("...: %v")` flattens the cause into text, so callers cannot test for `storage.ErrObjectNotExist` after `GetFile`.
- A `ReaderFailed` fault on a missing object is reported as "object does not exist". Which error the client reports in that case is not modelled.
- Callbacks are pure function values. A callback that itself calls `PutFile` is not modelled. `ProcessFile` therefore cannot change the store in the model.
- Concurrent writers to the same object between the read and the write-back of `ProcessAndUpdateFile` (last write wins) are not modelled.
- A slice's spare capacity past its starting length: the backing array of the filter pass has exactly the keep-pass length. The range loop only reads indices below that length, so the spare capacity is never observed.
- `storage.ObjectAttrs` keeps only bucket, name and size. The listing reads nothing else.
- Filters after the first one in the variadic `filter` argument: the source never consults them either.
- A nil filter function: calling it panics in Go. The model only has total filter functions.

## Findings

| source | as written | input that shows it | evidently intended | confidence | as-written member | corrected member |
|---|---|---|---|---|---|---|
| google/cloudstorage.go:137-143 | deletes rejected entries from `result` while ranging over it by index, so the entry that slides into index `i` is never tested | entries `[a, b, c]` with `a` and `b` rejected and `c` accepted: the result is `[b, c]` | exactly the accepted entries in listing order, `[c]` (doc comment at lines 106-107) | high; not executed | Listing.SweepSkipsAfterRemoval | Listing.FilesAtPathCorrected |
| google/cloudstorage.go:137-143 | a rejection at index `i` after an earlier removal evaluates `result[i+1:]` with `i+1` past the shortened length | entries `[a, b]` with both rejected: runtime panic "slice bounds out of range" | an empty result | high; not executed | Listing.TwoRejectedPanic | Listing.FilesAtPathCorrected |
