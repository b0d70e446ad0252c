/** The writer queue (db/db_impl.cc, Write and BuildBatchGroup): writers join a queue, and the one at its front
    writes for a group of those behind it. */
module GroupCommit {
  import opened Keys
  import opened Coding
  import opened WriteBatches

  /** A queued Writer; a null batch asks for a compaction only. */
  datatype Writer = Writer(id: nat, batch: Option<seq<Op>>, sync: bool) {
    function Ops(): seq<Op> { if batch.Some? then batch.value else [] }
  }

  /** The updates of a list of writers, in queue order. */
  function AllOps(ws: seq<Writer>): seq<Op> {
    if ws == [] then [] else AllOps(ws[..|ws|-1]) + ws[|ws|-1].Ops()
  }

  lemma {:induction false} AllOpsAppend(a: seq<Writer>, b: seq<Writer>)
    ensures AllOps(a + b) == AllOps(a) + AllOps(b)
  {
    if b == [] {
      assert a + b == a;
    } else {
      assert (a + b)[..|a + b|-1] == a + b[..|b|-1];
      AllOpsAppend(a, b[..|b|-1]);
    }
  }

  /** The first `n` writers may be written together by the first. */
  predicate MayGroup(queue: seq<Writer>, n: nat) {
    && 1 <= n <= |queue| && queue[0].batch.Some?
    && forall i :: 0 <= i < n && queue[i].sync ==> queue[0].sync
  }

  // ----- BuildBatchGroup on the batches themselves -----

  /** A Writer as it stands in the queue, with its caller's batch. */
  class QueuedWriter {
    const batch: WriteBatch?
    const sync: bool

    constructor (batch: WriteBatch?, sync: bool)
      ensures this.batch == batch && this.sync == sync
    {
      this.batch := batch;
      this.sync := sync;
    }
  }

  /** Every caller's batch is well formed, and none is the database's temporary one. */
  ghost predicate Batches(writers: seq<QueuedWriter>, tmp: WriteBatch)
    reads set i | 0 <= i < |writers| && writers[i].batch != null :: writers[i].batch
  {
    forall i :: 0 <= i < |writers| && writers[i].batch != null ==> writers[i].batch != tmp && writers[i].batch.Valid()
  }

  /** The queue as values: `ws` are the writers, `sizes` the bytes of their batches. */
  ghost predicate Shows(writers: seq<QueuedWriter>, ws: seq<Writer>, sizes: seq<nat>)
    reads set i | 0 <= i < |writers| && writers[i].batch != null :: writers[i].batch
  {
    && |ws| == |sizes| == |writers|
    && forall i :: 0 <= i < |writers| ==>
         && ws[i].sync == writers[i].sync
         && if writers[i].batch == null then ws[i].batch == None && sizes[i] == 0
            else ws[i].batch == Some(writers[i].batch.ops) && sizes[i] == |writers[i].batch.rep|
  }

  function Sum(sizes: seq<nat>, n: nat): nat
    requires n <= |sizes|
  {
    if n == 0 then 0 else Sum(sizes, n - 1) + sizes[n-1]
  }

  const GROUP_LIMIT: nat := 0x10_0000
  const SMALL_BATCH: nat := 0x2_0000

  /** A group may have a megabyte, but a small write is not slowed down by much more than its own size. */
  ghost predicate WithinLimit(total: nat, first: nat) {
    if first <= 131072 then total <= first + 131072 else total <= 1048576
  }

  lemma {:induction false} ManyBytes(ops: seq<Op>)
    ensures |Records(ops)| >= |ops|
  {
    if ops != [] {
      ManyBytes(ops[1..]);
    }
  }

  /** A batch has at least as many bytes as updates, so a group within the size limit cannot overflow the count. */
  lemma CountFits(b: WriteBatch)
    requires b.Valid()
    ensures HEADER + |b.ops| <= |b.rep|
  {
    ManyBytes(b.ops);
    HeaderSplit(b.sequence, b.ops);
  }

  lemma OneMoreWriter(ws: seq<Writer>, i: nat)
    requires i < |ws|
    ensures AllOps(ws[..i+1]) == AllOps(ws[..i]) + ws[i].Ops()
  {
    assert ws[..i+1][..i] == ws[..i];
  }

  /** Appends to the group's batch, switching to `tmp` rather than disturbing the first caller's batch. */
  method AppendTo(result: WriteBatch, first: WriteBatch, tmp: WriteBatch, batch: WriteBatch) returns (r: WriteBatch)
    requires result.Valid() && tmp.Valid() && batch.Valid() && tmp != batch
    requires result == tmp || (result == first != tmp && tmp.ops == [])
    requires |result.ops| + |batch.ops| <= MAX_COUNT
    modifies tmp
    ensures r == tmp && tmp.Valid() && tmp.ops == old(result.ops) + batch.ops
  {
    hide WellFormed, BatchBytes;
    r := result;
    if result != tmp {
      r := tmp;
      r.Append(first);
    }
    r.Append(batch);
  }

  /** The batch to write for the first writer and a run of those behind it, ending at index `last`.  A caller's
      batch is used as it is when it is the only one; otherwise all are copied to `tmp`. */
  method BuildBatchGroup(writers: seq<QueuedWriter>, tmp: WriteBatch, ghost ws: seq<Writer>, ghost sizes: seq<nat>)
    returns (result: WriteBatch, last: nat)
    requires Shows(writers, ws, sizes) && writers != [] && writers[0].batch != null && Batches(writers, tmp)
    requires tmp.Valid() && tmp.ops == []
    modifies tmp
    ensures result.Valid() && MayGroup(ws, last + 1) && result.ops == AllOps(ws[..last+1])
    ensures result == tmp || (result == writers[0].batch && forall i :: 0 < i <= last ==> writers[i].batch == null)
    ensures result == tmp ==> WithinLimit(Sum(sizes, last + 1), sizes[0])
    ensures last + 1 < |ws| ==> || (ws[last+1].sync && !ws[0].sync)
                                || (ws[last+1].batch.Some? && !WithinLimit(Sum(sizes, last + 2), sizes[0]))
  {
    hide AllOps, WellFormed, BatchBytes;
    var first := writers[0];
    result := first.batch;
    var size := |first.batch.rep|;
    var maxSize := GROUP_LIMIT;
    if size <= SMALL_BATCH {
      maxSize := size + SMALL_BATCH;
    }
    last := 0;
    CountFits(first.batch);
    OneMoreWriter(ws, 0);
    AllOpsOfNone(ws[..0]);
    var i := 1;
    while i < |writers|
      invariant last + 1 == i <= |writers| && tmp.Valid() && result.Valid() && size == Sum(sizes, i)
      invariant result.ops == AllOps(ws[..i]) && |result.ops| <= size
      invariant forall j :: 0 <= j < i && ws[j].sync ==> first.sync
      invariant if result == tmp then size <= maxSize
                else result == first.batch && tmp.ops == [] && forall j :: 0 < j < i ==> writers[j].batch == null
    {
      var w := writers[i];
      if w.sync && !first.sync {
        break;
      }
      OneMoreWriter(ws, i);
      if w.batch != null {
        if size + |w.batch.rep| > maxSize {
          break;
        }
        size := size + |w.batch.rep|;
        CountFits(w.batch);
        result := AppendTo(result, first.batch, tmp, w.batch);
      }
      last := i;
      i := i + 1;
    }
  }

  lemma AllOpsOfNone(ws: seq<Writer>)
    requires ws == []
    ensures AllOps(ws) == []
  {
  }

  /** The front writer takes its group and numbers it behind the last sequence number; `next` is the new one. */
  method TakeGroup(writers: seq<QueuedWriter>, tmp: WriteBatch, lastSequence: nat, ghost ws: seq<Writer>, ghost sizes: seq<nat>)
    returns (updates: WriteBatch, last: nat, next: nat)
    requires Shows(writers, ws, sizes) && writers != [] && writers[0].batch != null && Batches(writers, tmp)
    requires tmp.Valid() && tmp.ops == [] && lastSequence < MAX_SEQUENCE
    modifies tmp, writers[0].batch
    ensures MayGroup(ws, last + 1) && WellFormed(AllOps(ws[..last+1]))
    ensures updates.Valid() && updates.rep == BatchBytes(lastSequence + 1, AllOps(ws[..last+1]))
    ensures next == lastSequence + |AllOps(ws[..last+1])|
  {
    hide AllOps, Shows, Batches, WithinLimit, Sum, Records, BatchBytes;
    updates, last := BuildBatchGroup(writers, tmp, ws, sizes);
    updates.SetSequence(lastSequence + 1);
    next := lastSequence + updates.Count();
  }
}
