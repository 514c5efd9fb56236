/** Splitting a large write into transactions that respect a byte cap and an entry
    cap, and writing them one after another. */
module WriteChunks {
  import opened Facts
  import opened RangeScan

  const MUTATION_BYTE_OVERHEAD := 64

  datatype Limits = Limits(maxTransactionBytes: int, maxTransactionEntries: Option<int>, maxValueBytes: int,
                           subspaceBytes: nat)

  datatype Rejection = ValueTooLarge(bytes: nat) | EntryTooLarge(bytes: nat)

  datatype Chunked = Rejected(why: Rejection) | Chunks(chunks: seq<seq<Entry>>)

  function MutationBytes(e: Entry, limits: Limits): nat {
    limits.subspaceBytes + |e.key| + |e.value| + MUTATION_BYTE_OVERHEAD
  }

  /** Why an entry cannot be written at all; the value is looked at first. */
  function RejectionOf(e: Entry, limits: Limits): Option<Rejection> {
    if |e.value| > limits.maxValueBytes then Some(ValueTooLarge(|e.value|))
    else if MutationBytes(e, limits) > limits.maxTransactionBytes then Some(EntryTooLarge(MutationBytes(e, limits)))
    else None
  }

  // Partitions into transactions

  function Bytes(chunk: seq<Entry>, limits: Limits): nat {
    if chunk == [] then 0 else Bytes(chunk[..|chunk| - 1], limits) + MutationBytes(chunk[|chunk| - 1], limits)
  }

  predicate Fits(chunk: seq<Entry>, limits: Limits) {
    && chunk != []
    && Bytes(chunk, limits) <= limits.maxTransactionBytes
    && (limits.maxTransactionEntries.Some? ==>
          |chunk| <= if limits.maxTransactionEntries.value < 1 then 1 else limits.maxTransactionEntries.value)
  }

  function DataBytes(chunk: seq<Entry>): nat {
    if chunk == [] then 0
    else DataBytes(chunk[..|chunk| - 1]) + |chunk[|chunk| - 1].key| + |chunk[|chunk| - 1].value|
  }

  /** A chunk counts its keys and values, and for each entry the prefix and 64 bytes. */
  lemma {:induction false} BytesAre(chunk: seq<Entry>, limits: Limits)
    ensures Bytes(chunk, limits) == DataBytes(chunk) + |chunk| * (64 + limits.subspaceBytes)
  {
    if chunk != [] {
      BytesAre(chunk[..|chunk| - 1], limits);
    }
  }

  lemma FitsMeans(chunk: seq<Entry>, limits: Limits)
    ensures Fits(chunk, limits) <==>
            && |chunk| >= 1 && DataBytes(chunk) + |chunk| * (64 + limits.subspaceBytes) <= limits.maxTransactionBytes
            && (limits.maxTransactionEntries == None || |chunk| == 1 || |chunk| <= limits.maxTransactionEntries.value)
  {
    BytesAre(chunk, limits);
  }

  /** An entry is refused for its value first, then for its size on its own. */
  lemma RejectionMeans(e: Entry, limits: Limits)
    ensures var size := |e.key| + |e.value| + limits.subspaceBytes + 64;
      match RejectionOf(e, limits)
      case None => |e.value| <= limits.maxValueBytes && size <= limits.maxTransactionBytes
      case Some(ValueTooLarge(bytes)) => bytes == |e.value| > limits.maxValueBytes
      case Some(EntryTooLarge(bytes)) => |e.value| <= limits.maxValueBytes && bytes == size > limits.maxTransactionBytes
  {
  }

  function Flatten(chunks: seq<seq<Entry>>): seq<Entry> {
    if chunks == [] then [] else chunks[0] + Flatten(chunks[1..])
  }

  /** Consecutive non-empty chunks of `entries`, each within both caps. */
  ghost predicate Partition(entries: seq<Entry>, chunks: seq<seq<Entry>>, limits: Limits) {
    Flatten(chunks) == entries && forall i :: 0 <= i < |chunks| ==> Fits(chunks[i], limits)
  }

  predicate FullBefore(chunk: seq<Entry>, next: seq<Entry>, limits: Limits) {
    next != [] && !Fits(chunk + [next[0]], limits)
  }

  /** No chunk could have taken the first entry of the next one as well. */
  ghost predicate Greedy(chunks: seq<seq<Entry>>, limits: Limits) {
    forall i, j :: 0 <= i < j == i + 1 < |chunks| ==> FullBefore(chunks[i], chunks[j], limits)
  }

  lemma {:induction false} FlattenAppend(chunks: seq<seq<Entry>>, last: seq<Entry>)
    ensures Flatten(chunks + [last]) == Flatten(chunks) + last
  {
    if chunks == [] {
      assert [last][1..] == [];
    } else {
      assert (chunks + [last])[1..] == chunks[1..] + [last];
      FlattenAppend(chunks[1..], last);
    }
  }

  lemma {:induction false} BytesSplit(a: seq<Entry>, b: seq<Entry>, limits: Limits)
    ensures Bytes(a + b, limits) == Bytes(a, limits) + Bytes(b, limits)
  {
    if b == [] {
      assert a + b == a;
    } else {
      assert (a + b)[..|a + b| - 1] == a + b[..|b| - 1];
      BytesSplit(a, b[..|b| - 1], limits);
    }
  }

  /** A non-empty run inside a chunk that fits, fits. */
  lemma RunFits(before: seq<Entry>, run: seq<Entry>, after: seq<Entry>, limits: Limits)
    requires run != [] && Fits(before + run + after, limits)
    ensures Fits(run, limits)
  {
    BytesSplit(before + run, after, limits);
    BytesSplit(before, run, limits);
  }

  lemma FirstChunkFull(s: seq<Entry>, greedy: seq<seq<Entry>>, limits: Limits)
    requires Partition(s, greedy, limits) && Greedy(greedy, limits) && greedy != [] && |greedy[0]| < |s|
    ensures !Fits(s[..|greedy[0]| + 1], limits)
  {
    var i := |greedy[0]|;
    assert s == greedy[0] + Flatten(greedy[1..]);
    assert greedy[1..] != [] && s[i..] == Flatten(greedy[1..]);
    assert greedy[1..][0] == greedy[1] && FullBefore(greedy[0], greedy[1], limits);
    assert s[..i + 1] == greedy[0] + [greedy[1][0]];
  }

  lemma FirstChunkReaches(s: seq<Entry>, greedy: seq<seq<Entry>>, j: nat, pre: seq<Entry>, limits: Limits)
    requires Partition(s, greedy, limits) && Greedy(greedy, limits) && s != []
    requires j <= |s| && Fits(pre + s[..j], limits)
    ensures greedy != [] && j <= |greedy[0]|
  {
    if |greedy[0]| < |s| {
      FirstChunkFull(s, greedy, limits);
      var i := |greedy[0]|;
      if j > i {
        assert pre + s[..j] == pre + s[..i + 1] + s[i + 1..j];
        RunFits(pre, s[..i + 1], s[i + 1..j], limits);
      }
    }
  }

  lemma RestPartition(s: seq<Entry>, chunks: seq<seq<Entry>>, limits: Limits)
    requires Partition(s, chunks, limits) && chunks != []
    ensures |chunks[0]| <= |s| && chunks[0] == s[..|chunks[0]|] && Partition(s[|chunks[0]|..], chunks[1..], limits)
  {
    assert s == chunks[0] + Flatten(chunks[1..]);
  }

  /** A greedy partition has no more chunks than any partition of the same entries,
      or of those entries with others put before them. */
  lemma {:induction false} GreedyIsLeast(pre: seq<Entry>, s: seq<Entry>, greedy: seq<seq<Entry>>,
                                         other: seq<seq<Entry>>, limits: Limits)
    requires Partition(s, greedy, limits) && Greedy(greedy, limits) && Partition(pre + s, other, limits)
    ensures |greedy| <= |other|
    decreases |other|
  {
    if s != [] {
      assert other != [];
      RestPartition(pre + s, other, limits);
      var reach := |other[0]|;
      if reach <= |pre| {
        assert (pre + s)[reach..] == pre[reach..] + s;
        GreedyIsLeast(pre[reach..], s, greedy, other[1..], limits);
      } else {
        var j := reach - |pre|;
        assert other[0] == pre + s[..j];
        FirstChunkReaches(s, greedy, j, pre, limits);
        RestPartition(s, greedy, limits);
        var i := |greedy[0]|;
        assert (pre + s)[reach..] == s[j..] == s[j..i] + s[i..];
        GreedyRest(greedy, limits);
        GreedyIsLeast(s[j..i], s[i..], greedy[1..], other[1..], limits);
      }
    } else if greedy != [] {
      RestPartition(s, greedy, limits);
    }
  }

  lemma GreedyRest(greedy: seq<seq<Entry>>, limits: Limits)
    requires Greedy(greedy, limits) && greedy != []
    ensures Greedy(greedy[1..], limits)
  {
    forall i | 0 <= i < |greedy[1..]| - 1 ensures FullBefore(greedy[1..][i], greedy[1..][i + 1], limits) {
      assert FullBefore(greedy[i + 1], greedy[i + 2], limits);
    }
  }

  // The chunker

  ghost predicate AllWritable(entries: seq<Entry>, limits: Limits) {
    forall i :: 0 <= i < |entries| ==> RejectionOf(entries[i], limits).None?
  }

  ghost predicate FirstRejection(entries: seq<Entry>, limits: Limits, why: Rejection) {
    exists i :: 0 <= i < |entries| && AllWritable(entries[..i], limits) && RejectionOf(entries[i], limits) == Some(why)
  }

  function WithCurrent(chunks: seq<seq<Entry>>, current: seq<Entry>): seq<seq<Entry>> {
    if current == [] then chunks else chunks + [current]
  }

  lemma StartsChunk(chunks: seq<seq<Entry>>, current: seq<Entry>, e: Entry, done: seq<Entry>, limits: Limits)
    requires Partition(done, WithCurrent(chunks, current), limits) && Greedy(WithCurrent(chunks, current), limits)
    requires current != [] && !Fits(current + [e], limits) && Fits([e], limits)
    ensures Partition(done + [e], chunks + [current] + [[e]], limits) && Greedy(chunks + [current] + [[e]], limits)
  {
    var all := chunks + [current];
    FlattenAppend(all, [e]);
    forall i | 0 <= i < |all| ensures FullBefore((all + [[e]])[i], (all + [[e]])[i + 1], limits) {
      if i < |all| - 1 { assert FullBefore(all[i], all[i + 1], limits); }
    }
  }

  lemma GrowsChunk(chunks: seq<seq<Entry>>, current: seq<Entry>, e: Entry, done: seq<Entry>, limits: Limits)
    requires Partition(done, WithCurrent(chunks, current), limits) && Greedy(WithCurrent(chunks, current), limits)
    requires current == [] ==> chunks == []
    requires Fits(current + [e], limits)
    ensures Partition(done + [e], chunks + [current + [e]], limits) && Greedy(chunks + [current + [e]], limits)
  {
    var before, after := WithCurrent(chunks, current), chunks + [current + [e]];
    FlattenAppend(chunks, current + [e]);
    if current != [] {
      FlattenAppend(chunks, current);
    }
    forall i | 0 <= i < |after| ensures Fits(after[i], limits) {
      if i < |chunks| { assert Fits(before[i], limits); }
    }
    forall i | 0 <= i < |after| - 1 ensures FullBefore(after[i], after[i + 1], limits) {
      assert FullBefore(before[i], before[i + 1], limits);
    }
  }

  /** The chunks closed so far and the open one are a greedy partition of `done`. */
  ghost predicate ChunkedSoFar(done: seq<Entry>, chunks: seq<seq<Entry>>, current: seq<Entry>, limits: Limits) {
    && AllWritable(done, limits)
    && (current == [] ==> chunks == [])
    && Partition(done, WithCurrent(chunks, current), limits)
    && Greedy(WithCurrent(chunks, current), limits)
  }

  /** The next entry closes the open chunk. */
  predicate Overflows(current: seq<Entry>, bytes: nat, e: Entry, limits: Limits) {
    current != [] &&
    (bytes + MutationBytes(e, limits) > limits.maxTransactionBytes
     || (limits.maxTransactionEntries.Some? && |current| >= limits.maxTransactionEntries.value))
  }

  lemma OverflowsIsMisfit(current: seq<Entry>, e: Entry, limits: Limits)
    requires RejectionOf(e, limits).None?
    ensures Bytes(current + [e], limits) == Bytes(current, limits) + MutationBytes(e, limits)
    ensures Bytes([e], limits) == MutationBytes(e, limits) && Fits([e], limits)
    ensures current != [] ==> (Overflows(current, Bytes(current, limits), e, limits) <==> !Fits(current + [e], limits))
  {
    BytesSplit(current, [e], limits);
    assert Bytes([e], limits) == MutationBytes(e, limits);
  }

  lemma Closes(done: seq<Entry>, chunks: seq<seq<Entry>>, current: seq<Entry>, e: Entry, limits: Limits)
    requires ChunkedSoFar(done, chunks, current, limits) && RejectionOf(e, limits).None?
    requires Overflows(current, Bytes(current, limits), e, limits)
    ensures ChunkedSoFar(done + [e], chunks + [current], [e], limits)
  {
    OverflowsIsMisfit(current, e, limits);
    StartsChunk(chunks, current, e, done, limits);
    assert chunks + [current] + [[e]] == WithCurrent(chunks + [current], [e]);
  }

  lemma Takes(done: seq<Entry>, chunks: seq<seq<Entry>>, current: seq<Entry>, e: Entry, limits: Limits)
    requires ChunkedSoFar(done, chunks, current, limits) && RejectionOf(e, limits).None?
    requires !Overflows(current, Bytes(current, limits), e, limits)
    ensures ChunkedSoFar(done + [e], chunks, current + [e], limits)
  {
    OverflowsIsMisfit(current, e, limits);
    assert Fits(current + [e], limits) by {
      if current == [] { assert current + [e] == [e]; }
    }
    GrowsChunk(chunks, current, e, done, limits);
  }

  lemma OneMore(entries: seq<Entry>, i: nat, chunks: seq<seq<Entry>>, current: seq<Entry>, limits: Limits)
    requires i < |entries| && ChunkedSoFar(entries[..i], chunks, current, limits)
             && RejectionOf(entries[i], limits).None?
    ensures var e := entries[i];
      if Overflows(current, Bytes(current, limits), e, limits) then
        ChunkedSoFar(entries[..i + 1], chunks + [current], [] + [e], limits)
            && Bytes([] + [e], limits) == MutationBytes(e, limits)
      else
        ChunkedSoFar(entries[..i + 1], chunks, current + [e], limits)
        && Bytes(current + [e], limits) == Bytes(current, limits) + MutationBytes(e, limits)
  {
    var e := entries[i];
    assert entries[..i + 1] == entries[..i] + [e] && [] + [e] == [e];
    OverflowsIsMisfit(current, e, limits);
    if Overflows(current, Bytes(current, limits), e, limits) {
      Closes(entries[..i], chunks, current, e, limits);
    } else {
      Takes(entries[..i], chunks, current, e, limits);
    }
  }

  lemma RejectedAt(entries: seq<Entry>, i: nat, why: Rejection, limits: Limits)
    requires i < |entries| && AllWritable(entries[..i], limits) && RejectionOf(entries[i], limits) == Some(why)
    ensures FirstRejection(entries, limits, why) && !AllWritable(entries, limits)
  {
  }

  /** A partition, and no partition has fewer chunks. */
  ghost predicate LeastPartition(entries: seq<Entry>, chunks: seq<seq<Entry>>, limits: Limits) {
    && Partition(entries, chunks, limits)
    && forall other :: Partition(entries, other, limits) ==> |chunks| <= |other|
  }

  lemma ChunkedIsLeast(entries: seq<Entry>, chunks: seq<seq<Entry>>, current: seq<Entry>, limits: Limits)
    requires ChunkedSoFar(entries[..|entries|], chunks, current, limits)
    ensures LeastPartition(entries, WithCurrent(chunks, current), limits) && AllWritable(entries, limits)
  {
    assert entries[..|entries|] == entries;
    var all := WithCurrent(chunks, current);
    forall other | Partition(entries, other, limits) ensures |all| <= |other| {
      assert [] + entries == entries;
      GreedyIsLeast([], entries, all, other, limits);
    }
  }

  method ChunkEntriesByByteSize(entries: seq<Entry>, limits: Limits) returns (r: Chunked)
    ensures r.Rejected? <==> !AllWritable(entries, limits)
    ensures r.Rejected? ==> FirstRejection(entries, limits, r.why)
    ensures r.Chunks? ==> LeastPartition(entries, r.chunks, limits)
  {
    var chunks: seq<seq<Entry>> := [];
    var current: seq<Entry> := [];
    var currentBytes := 0;
    for i := 0 to |entries|
      invariant currentBytes == Bytes(current, limits)
      invariant ChunkedSoFar(entries[..i], chunks, current, limits)
    {
      var e := entries[i];
      if |e.value| > limits.maxValueBytes {
        RejectedAt(entries, i, ValueTooLarge(|e.value|), limits);
        return Rejected(ValueTooLarge(|e.value|));
      }
      var entryBytes := limits.subspaceBytes + |e.key| + |e.value| + MUTATION_BYTE_OVERHEAD;
      if entryBytes > limits.maxTransactionBytes {
        RejectedAt(entries, i, EntryTooLarge(entryBytes), limits);
        return Rejected(EntryTooLarge(entryBytes));
      }
      var wouldExceedBytes := |current| > 0 && currentBytes + entryBytes > limits.maxTransactionBytes;
      var wouldExceedEntries := limits.maxTransactionEntries.Some? && |current| > 0
          && |current| >= limits.maxTransactionEntries.value;
      OneMore(entries, i, chunks, current, limits);
      if wouldExceedBytes || wouldExceedEntries {
        chunks := chunks + [current];
        current := [];
        currentBytes := 0;
      }
      current := current + [e];
      currentBytes := currentBytes + entryBytes;
    }
    ChunkedIsLeast(entries, chunks, current, limits);
    if |current| > 0 {
      chunks := chunks + [current];
    }
    return Chunks(chunks);
  }

  // Writing the chunks

  function Put(store: Store, entries: seq<Entry>): Store {
    if entries == [] then store
    else Put(store, entries[..|entries| - 1])[entries[|entries| - 1].key := entries[|entries| - 1].value]
  }

  /** Where a key is written last, or -1. */
  function LastIndex(entries: seq<Entry>, k: Key): (i: int)
    ensures -1 <= i < |entries|
    ensures i >= 0 ==> entries[i].key == k
    ensures forall j :: i < j < |entries| ==> entries[j].key != k
  {
    if entries == [] then -1
    else if entries[|entries| - 1].key == k then |entries| - 1
    else LastIndex(entries[..|entries| - 1], k)
  }

  function ValueAt(store: Store, k: Key): Option<seq<Byte>> {
    if k in store then Some(store[k]) else None
  }

  /** Writing a list leaves each key with its last value in the list, and every
      other key as it was. */
  lemma {:induction false} LastWriteWins(store: Store, entries: seq<Entry>, k: Key)
    ensures ValueAt(Put(store, entries), k)
            == if LastIndex(entries, k) >= 0 then Some(entries[LastIndex(entries, k)].value) else ValueAt(store, k)
  {
    if entries != [] {
      LastWriteWins(store, entries[..|entries| - 1], k);
    }
  }

  lemma {:induction false} PutAppend(store: Store, a: seq<Entry>, b: seq<Entry>)
    ensures Put(store, a + b) == Put(Put(store, a), b)
  {
    if b == [] {
      assert a + b == a;
    } else {
      assert (a + b)[..|a + b| - 1] == a + b[..|b| - 1];
      PutAppend(store, a, b[..|b| - 1]);
    }
  }

  lemma {:induction false} FlattenSplit(chunks: seq<seq<Entry>>, i: nat)
    requires i <= |chunks|
    ensures Flatten(chunks) == Flatten(chunks[..i]) + Flatten(chunks[i..])
  {
    if i == 0 {
      assert chunks[..0] == [] && chunks[0..] == chunks;
    } else {
      assert chunks[..i][1..] == chunks[1..][..i - 1] && chunks[i..] == chunks[1..][i - 1..];
      FlattenSplit(chunks[1..], i - 1);
    }
  }

  /** The chunks up to the i-th hold a prefix of the entries, and the next chunk the
      entries after it. */
  lemma NextChunk(chunks: seq<seq<Entry>>, i: nat)
    requires i < |chunks|
    ensures var all, n := Flatten(chunks), |Flatten(chunks[..i])|;
      && n + |chunks[i]| <= |all|
      && |Flatten(chunks[..i + 1])| == n + |chunks[i]|
      && all[..n + |chunks[i]|] == all[..n] + chunks[i]
  {
    assert chunks[..i + 1] == chunks[..i] + [chunks[i]];
    FlattenAppend(chunks[..i], chunks[i]);
    FlattenSplit(chunks, i);
    FlattenSplit(chunks, i + 1);
  }

  lemma NextWrite(store: Store, chunks: seq<seq<Entry>>, i: nat)
    requires i < |chunks|
    ensures var all, n := Flatten(chunks), |Flatten(chunks[..i])|;
      && n + |chunks[i]| <= |all| && |Flatten(chunks[..i + 1])| == n + |chunks[i]|
      && Put(store, all[..n + |chunks[i]|]) == Put(Put(store, all[..n]), chunks[i])
  {
    NextChunk(chunks, i);
    PutAppend(store, Flatten(chunks)[..|Flatten(chunks[..i])|], chunks[i]);
  }

  class KvStore {
    var contents: Store

    constructor ()
      ensures contents == map[]
    {
      contents := map[];
    }

    /** `commits` is how many of the chunk transactions go through before one fails
        for good. */
    method SetAll(entries: seq<Entry>, limits: Limits, commits: nat) returns (r: Chunked, written: nat)
      modifies this
      ensures r.Rejected? <==> !AllWritable(entries, limits)
      ensures r.Rejected? ==> written == 0 && contents == old(contents)
      ensures r.Chunks? ==> LeastPartition(entries, r.chunks, limits)
      ensures written <= |entries| && contents == Put(old(contents), entries[..written])
      ensures r.Chunks? ==> written == |Flatten(r.chunks[..if commits < |r.chunks| then commits else |r.chunks|])|
      ensures r.Chunks? && commits >= |r.chunks| ==> written == |entries|
    {
      r := ChunkEntriesByByteSize(entries, limits);
      if r.Rejected? {
        assert entries[..0] == [];
        written := 0;
      } else {
        written := WriteChunks(r.chunks, commits);
        assert r.chunks[..|r.chunks|] == r.chunks;
      }
    }

    method WriteChunks(chunks: seq<seq<Entry>>, commits: nat) returns (written: nat)
      modifies this
      ensures written == |Flatten(chunks[..if commits < |chunks| then commits else |chunks|])| <= |Flatten(chunks)|
      ensures contents == Put(old(contents), Flatten(chunks)[..written])
    {
      written := 0;
      var i := 0;
      assert chunks[..0] == [];
      while i < |chunks| && i < commits
        invariant 0 <= i <= |chunks| && i <= commits
        invariant written == |Flatten(chunks[..i])| <= |Flatten(chunks)|
        invariant contents == Put(old(contents), Flatten(chunks)[..written])
      {
        NextWrite(old(contents), chunks, i);
        Transact(chunks[i]);
        written := written + |chunks[i]|;
        i := i + 1;
      }
    }

    /** One transaction: all of its writes take effect together. */
    method Transact(chunk: seq<Entry>)
      modifies this
      ensures contents == Put(old(contents), chunk)
    {
      for i := 0 to |chunk|
        invariant contents == Put(old(contents), chunk[..i])
      {
        assert chunk[..i + 1][..i] == chunk[..i];
        contents := contents[chunk[i].key := chunk[i].value];
      }
      assert chunk[..|chunk|] == chunk;
    }
  }
}
