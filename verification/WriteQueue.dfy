/** Every run of the write path (db/db_impl.cc, Write): any interleaving of writers joining the queue with the steps
    of the one at its front, which works without the lock between taking its group and completing it. */
module WriteQueue {
  import opened Keys
  import opened WriteBatches
  import opened GroupCommit
  import opened Comparator
  import opened Visibility

  /** The first `n` queued writers, their updates, and the first of the sequence numbers these get. */
  datatype Group = Group(n: nat, first: nat, ops: seq<Op>)

  datatype Phase =
    | Idle
    | Logging(group: Group)
    | Syncing(group: Group)
    | Inserting(group: Group, inserted: nat)
    /** `numbered` says whether the updates took sequence numbers. */
    | Finishing(group: Group, numbered: bool, ok: bool)

  /** A completed write, its status, and the first sequence number its updates took, if they took any. */
  datatype Done = Done(writer: Writer, ok: bool, first: Option<nat>)

  datatype LogRecord = LogRecord(first: nat, ops: seq<Op>, synced: bool)

  /** `arrived` and `done` record all writers that ever joined and all that were completed, in that order; `failed`
      is a background error. */
  datatype State = State(queue: seq<Writer>, arrived: seq<Writer>, done: seq<Done>, phase: Phase,
                         lastSequence: nat, mem: seq<Entry>, log: seq<LogRecord>, failed: bool)

  // ----- The steps -----

  predicate Enqueue(s: State, t: State, w: Writer) {
    && (forall i :: 0 <= i < |s.arrived| ==> s.arrived[i].id != w.id)
    && t == s.(queue := s.queue + [w], arrived := s.arrived + [w])
  }

  /** There is room in the memtable: the front writer takes a group.  Sequence numbers have not run out. */
  predicate StartGroup(s: State, t: State, n: nat) {
    && s.phase.Idle? && !s.failed && MayGroup(s.queue, n)
    && var ops := AllOps(s.queue[..n]);
      && s.lastSequence + |ops| <= MAX_SEQUENCE
      && t == s.(phase := Logging(Group(n, s.lastSequence + 1, ops)))
  }

  /** No room, or a null batch: the front writer completes alone. */
  predicate StartAlone(s: State, t: State, ok: bool) {
    && s.phase.Idle? && s.queue != [] && (ok ==> s.queue[0].batch == None && !s.failed)
    && t == s.(phase := Finishing(Group(1, s.lastSequence + 1, []), false, ok))
  }

  /** A failed append may leave the record in the log all the same. */
  predicate AppendToLog(s: State, t: State, ok: bool, kept: bool) {
    && s.phase.Logging? && s.queue != [] && (ok ==> kept)
    && var g := s.phase.group;
      t == s.(log := if kept then s.log + [LogRecord(g.first, g.ops, false)] else s.log,
              phase := if !ok then Finishing(g, true, false)
                       else if s.queue[0].sync then Syncing(g) else Inserting(g, 0))
  }

  predicate Sync(s: State, t: State, ok: bool) {
    && s.phase.Syncing? && s.log != []
    && var g, last := s.phase.group, |s.log| - 1;
      t == if ok then s.(log := s.log[last := s.log[last].(synced := true)], phase := Inserting(g, 0))
           else s.(failed := true, phase := Finishing(g, true, false))
  }

  /** One entry at a time; readers may look in between. */
  predicate Insert(s: State, t: State) {
    && s.phase.Inserting?
    && var g, k := s.phase.group, s.phase.inserted;
      && g.first + |g.ops| <= MAX_SEQUENCE + 1
      && t == if k < |g.ops| then s.(mem := s.mem + [Numbered(g.ops, g.first)[k]], phase := Inserting(g, k + 1))
              else s.(phase := Finishing(g, true, true))
  }

  /** The results for the writers of a group. */
  function Completions(ws: seq<Writer>, first: nat, numbered: bool, ok: bool): seq<Done> {
    if ws == [] then []
    else
      var init := ws[..|ws|-1];
      Completions(init, first, numbered, ok)
      + [Done(ws[|ws|-1], ok, if numbered then Some(first + |AllOps(init)|) else None)]
  }

  /** Publishes the new last sequence number and completes the writers of the group, in queue order. */
  predicate Finish(s: State, t: State) {
    && s.phase.Finishing? && s.phase.group.n <= |s.queue|
    && var g := s.phase.group;
      t == s.(lastSequence := if s.phase.numbered then s.lastSequence + |g.ops| else s.lastSequence,
              done := s.done + Completions(s.queue[..g.n], g.first, s.phase.numbered, s.phase.ok),
              queue := s.queue[g.n..], phase := Idle)
  }

  predicate BackgroundError(s: State, t: State) { t == s.(failed := true) }

  /** A step of the writer at the front of the queue. */
  ghost predicate LeaderStep(s: State, t: State) {
    || (exists n: nat :: StartGroup(s, t, n)) || (exists ok :: StartAlone(s, t, ok))
    || (exists ok, kept :: AppendToLog(s, t, ok, kept)) || (exists ok :: Sync(s, t, ok))
    || Insert(s, t) || Finish(s, t)
  }

  ghost predicate Step(s: State, t: State) {
    LeaderStep(s, t) || (exists w :: Enqueue(s, t, w)) || BackgroundError(s, t)
  }

  // ----- The invariant -----

  function Writers(done: seq<Done>): seq<Writer> { seq(|done|, i requires 0 <= i < |done| => done[i].writer) }

  /** How many sequence numbers the completed writes took. */
  function Taken(done: seq<Done>): nat {
    if done == [] then 0
    else Taken(done[..|done|-1]) + if done[|done|-1].first.Some? then |done[|done|-1].writer.Ops()| else 0
  }

  /** The entries of one successful write. */
  function EntriesOf(d: Done): seq<Entry> {
    if d.ok && d.first.Some? && d.first.value + |d.writer.Ops()| <= MAX_SEQUENCE + 1
    then Numbered(d.writer.Ops(), d.first.value) else []
  }

  /** The entries of the successful writes, in the order of completion. */
  function Applied(done: seq<Done>): seq<Entry> {
    if done == [] then [] else Applied(done[..|done|-1]) + EntriesOf(done[|done|-1])
  }

  /** Sequence numbers are handed out consecutively after `initial`, failed writes included. */
  predicate Consecutive(done: seq<Done>, initial: nat) {
    forall i :: 0 <= i < |done| && done[i].first.Some? ==> done[i].first.value == initial + 1 + Taken(done[..i])
  }

  /** The record holds the updates, numbered from `first`. */
  predicate RecordHolds(r: LogRecord, first: nat, ops: seq<Op>) {
    && r.first <= first && first - r.first + |ops| <= |r.ops|
    && r.ops[first - r.first..first - r.first + |ops|] == ops
  }

  /** A successful write stands in the log, in a synced record if it asked for that. */
  ghost predicate Logged(log: seq<LogRecord>, d: Done) {
    d.ok && d.first.Some? ==>
      exists j :: 0 <= j < |log| && RecordHolds(log[j], d.first.value, d.writer.Ops()) && (d.writer.sync ==> log[j].synced)
  }

  ghost predicate AllLogged(log: seq<LogRecord>, done: seq<Done>) {
    forall i :: 0 <= i < |done| ==> Logged(log, done[i])
  }

  /** Records follow one another without sharing a sequence number, and end before `next`. */
  predicate LogInOrder(log: seq<LogRecord>, next: nat) {
    && (forall j, k :: 0 <= j < k < |log| ==> log[j].first + |log[j].ops| <= log[k].first)
    && (forall j :: 0 <= j < |log| ==> 0 < log[j].first && log[j].first + |log[j].ops| <= next)
  }

  /** The entries of the group in progress that are in the memtable already. */
  function InProgress(p: Phase): seq<Entry> {
    match p {
      case Inserting(g, k) =>
        if k <= |g.ops| && g.first + |g.ops| <= MAX_SEQUENCE + 1 then Numbered(g.ops, g.first)[..k] else []
      case Finishing(g, numbered, ok) =>
        if ok && numbered && g.first + |g.ops| <= MAX_SEQUENCE + 1 then Numbered(g.ops, g.first) else []
      case _ => []
    }
  }

  /** The group's record is the last of the log, synced if its leader asked for that. */
  predicate GroupLogged(s: State, g: Group) {
    s.log != [] && s.log[|s.log|-1].first == g.first && s.log[|s.log|-1].ops == g.ops
  }

  predicate GroupOk(s: State, g: Group) {
    && MayGroup(s.queue, g.n) && g.first == s.lastSequence + 1 && g.ops == AllOps(s.queue[..g.n])
    && s.lastSequence + |g.ops| <= MAX_SEQUENCE
  }

  predicate LeaderSynced(s: State) { s.queue != [] && s.log != [] && (s.queue[0].sync ==> s.log[|s.log|-1].synced) }

  predicate PhaseOk(s: State) {
    match s.phase {
      case Idle => true
      case Logging(g) => GroupOk(s, g)
      case Syncing(g) => GroupOk(s, g) && GroupLogged(s, g)
      case Inserting(g, k) => GroupOk(s, g) && GroupLogged(s, g) && LeaderSynced(s) && k <= |g.ops|
      case Finishing(g, numbered, ok) =>
        if numbered then GroupOk(s, g) && (ok ==> GroupLogged(s, g) && LeaderSynced(s))
        else g.n == 1 <= |s.queue| && g.ops == [] && (ok ==> s.queue[0].batch == None)
    }
  }

  /** Where the next record's sequence numbers may start. */
  function NextFirst(s: State): nat {
    match s.phase {
      case Idle => s.lastSequence + 1
      case Logging(g) => s.lastSequence + 1
      case Syncing(g) => s.lastSequence + 1 + |g.ops|
      case Inserting(g, k) => s.lastSequence + 1 + |g.ops|
      case Finishing(g, numbered, ok) => s.lastSequence + 1 + |g.ops|
    }
  }

  predicate DistinctIds(ws: seq<Writer>) { forall i, j :: 0 <= i < j < |ws| ==> ws[i].id != ws[j].id }

  ghost predicate Invariant(s: State, initial: nat) {
    && s.arrived == Writers(s.done) + s.queue && DistinctIds(s.arrived)
    && s.lastSequence == initial + Taken(s.done) <= MAX_SEQUENCE && Consecutive(s.done, initial)
    && s.mem == Applied(s.done) + InProgress(s.phase)
    && AllLogged(s.log, s.done) && LogInOrder(s.log, NextFirst(s))
    && PhaseOk(s) && UnnumberedAreNull(s.done)
  }

  /** A successful write without sequence numbers had a null batch. */
  predicate UnnumberedAreNull(done: seq<Done>) {
    forall i :: 0 <= i < |done| && done[i].ok && done[i].first == None ==> done[i].writer.batch == None
  }

  predicate Initial(s: State, initial: nat) {
    initial <= MAX_SEQUENCE && s == State([], [], [], Idle, initial, [], [], s.failed)
  }

  lemma InitialInvariant(s: State, initial: nat)
    requires Initial(s, initial)
    ensures Invariant(s, initial)
  {
    assert Writers([]) + [] == [];
  }

  // ----- Every step keeps the invariant -----

  lemma NumberedAppend(a: seq<Op>, b: seq<Op>, first: nat)
    requires first + |a| + |b| <= MAX_SEQUENCE + 1
    ensures Numbered(a + b, first) == Numbered(a, first) + Numbered(b, first + |a|)
  {
  }

  lemma OneMoreDone(done: seq<Done>, d: Done, initial: nat)
    ensures Writers(done + [d]) == Writers(done) + [d.writer]
    ensures Taken(done + [d]) == Taken(done) + if d.first.Some? then |d.writer.Ops()| else 0
    ensures Applied(done + [d]) == Applied(done) + EntriesOf(d)
    ensures Consecutive(done, initial) && (d.first.Some? ==> d.first.value == initial + 1 + Taken(done))
            ==> Consecutive(done + [d], initial)
  {
    assert (done + [d])[..|done|] == done;
    forall i | 0 <= i < |done| ensures (done + [d])[..i] == done[..i] {
    }
  }

  /** What completing the writers `ws` of a group adds to the completed ones. */
  lemma {:induction false} Completed(done: seq<Done>, ws: seq<Writer>, first: nat, numbered: bool, ok: bool, initial: nat)
    requires Consecutive(done, initial) && first == initial + 1 + Taken(done)
    requires first + |AllOps(ws)| <= MAX_SEQUENCE + 1
    ensures var all := done + Completions(ws, first, numbered, ok);
      && Writers(all) == Writers(done) + ws && Consecutive(all, initial)
      && Taken(all) == Taken(done) + (if numbered then |AllOps(ws)| else 0)
      && Applied(all) == Applied(done) + (if ok && numbered then Numbered(AllOps(ws), first) else [])
  {
    hide Numbered, Taken, Applied, Writers, Consecutive, EntriesOf, AllOps, Completions;
    if ws == [] {
      NoOps(first);
      assert done + [] == done && Writers(done) + [] == Writers(done);
    } else {
      var init, w := ws[..|ws|-1], ws[|ws|-1];
      var some := done + Completions(init, first, numbered, ok);
      var d := Done(w, ok, if numbered then Some(first + |AllOps(init)|) else None);
      LastCompletion(ws, first, numbered, ok);
      Completed(done, init, first, numbered, ok, initial);
      OneMoreDone(some, d, initial);
      assert done + Completions(ws, first, numbered, ok) == some + [d];
      assert Writers(done) + init + [w] == Writers(done) + ws;
      if ok && numbered {
        NumberedAppend(AllOps(init), w.Ops(), first);
        EntriesAre(d);
      } else {
        NoEntries(d);
      }
    }
  }

  lemma NoOps(first: nat)
    requires first <= MAX_SEQUENCE + 1
    ensures AllOps([]) == [] && Numbered([], first) == []
    ensures forall numbered, ok :: Completions([], first, numbered, ok) == []
  {
  }

  lemma LastCompletion(ws: seq<Writer>, first: nat, numbered: bool, ok: bool)
    requires ws != []
    ensures var init, w := ws[..|ws|-1], ws[|ws|-1];
      && AllOps(ws) == AllOps(init) + w.Ops()
      && Completions(ws, first, numbered, ok)
         == Completions(init, first, numbered, ok)
            + [Done(w, ok, if numbered then Some(first + |AllOps(init)|) else None)]
  {
  }

  lemma EntriesAre(d: Done)
    requires d.ok && d.first.Some? && d.first.value + |d.writer.Ops()| <= MAX_SEQUENCE + 1
    ensures EntriesOf(d) == Numbered(d.writer.Ops(), d.first.value)
  {
  }

  lemma NoEntries(d: Done)
    requires !d.ok || d.first == None
    ensures EntriesOf(d) == []
  {
  }

  lemma RecordHoldsPart(r: LogRecord, first: nat, a: seq<Op>, b: seq<Op>)
    requires RecordHolds(r, first, a + b)
    ensures RecordHolds(r, first, a) && RecordHolds(r, first + |a|, b)
  {
    var k := first - r.first;
    assert r.ops[k..k + |a|] == (a + b)[..|a|] == a;
    assert r.ops[k + |a|..k + |a| + |b|] == (a + b)[|a|..] == b;
  }

  lemma {:induction false} CompletedLogged(log: seq<LogRecord>, ws: seq<Writer>, first: nat, numbered: bool, ok: bool)
    requires log != [] && (ok && numbered ==> RecordHolds(log[|log|-1], first, AllOps(ws)))
    requires ok && numbered ==> forall i :: 0 <= i < |ws| && ws[i].sync ==> log[|log|-1].synced
    ensures AllLogged(log, Completions(ws, first, numbered, ok))
  {
    if ws != [] {
      var init := ws[..|ws|-1];
      if ok && numbered {
        RecordHoldsPart(log[|log|-1], first, AllOps(init), ws[|ws|-1].Ops());
      }
      CompletedLogged(log, init, first, numbered, ok);
    }
  }

  lemma {:induction false} FailedNeedNoLog(log: seq<LogRecord>, ws: seq<Writer>, first: nat, numbered: bool, ok: bool)
    requires !(ok && numbered)
    ensures AllLogged(log, Completions(ws, first, numbered, ok))
  {
    if ws != [] {
      FailedNeedNoLog(log, ws[..|ws|-1], first, numbered, ok);
    }
  }

  lemma FinishKeeps(s: State, t: State, initial: nat)
    requires Invariant(s, initial) && Finish(s, t)
    ensures Invariant(t, initial)
  {
    hide Numbered, Taken, Applied, Writers, Consecutive, EntriesOf, AllOps, Logged, RecordHolds, UnnumberedAreNull;
    var g, numbered, ok := s.phase.group, s.phase.numbered, s.phase.ok;
    var ws := s.queue[..g.n];
    CompletedAreNumbered(s.done, ws, g.first, numbered, ok);
    if numbered {
      Completed(s.done, ws, g.first, true, ok, initial);
    } else {
      CompletedAlone(s.done, ws, g.first, ok, initial);
    }
    if ok && numbered {
      WholeRecord(s.log[|s.log|-1]);
      CompletedLogged(s.log, ws, g.first, true, true);
    } else {
      FailedNeedNoLog(s.log, ws, g.first, numbered, ok);
    }
    assert Writers(s.done) + s.queue == Writers(s.done) + ws + t.queue;
  }

  lemma {:induction false} CompletedAreNumbered(done: seq<Done>, ws: seq<Writer>, first: nat, numbered: bool, ok: bool)
    requires UnnumberedAreNull(done) && (ok && !numbered ==> forall i :: 0 <= i < |ws| ==> ws[i].batch == None)
    ensures UnnumberedAreNull(done + Completions(ws, first, numbered, ok))
  {
    if ws != [] {
      CompletedAreNumbered(done, ws[..|ws|-1], first, numbered, ok);
      var d := Done(ws[|ws|-1], ok, if numbered then Some(first + |AllOps(ws[..|ws|-1])|) else None);
      assert done + Completions(ws, first, numbered, ok)
          == (done + Completions(ws[..|ws|-1], first, numbered, ok)) + [d];
    } else {
      assert done + [] == done;
    }
  }

  lemma CompletedAlone(done: seq<Done>, ws: seq<Writer>, first: nat, ok: bool, initial: nat)
    requires |ws| == 1 && Consecutive(done, initial)
    ensures var all := done + Completions(ws, first, false, ok);
      && Writers(all) == Writers(done) + ws && Consecutive(all, initial)
      && Taken(all) == Taken(done) && Applied(all) == Applied(done)
  {
    var d := Done(ws[0], ok, None);
    assert ws[..0] == [] && Completions(ws[..0], first, false, ok) == [];
    assert Completions(ws, first, false, ok) == [d] && ws == [ws[0]];
    OneMoreDone(done, d, initial);
    NoEntries(d);
  }

  lemma WholeRecord(r: LogRecord)
    ensures RecordHolds(r, r.first, r.ops)
  {
    assert r.ops[..|r.ops|] == r.ops;
  }

  lemma EnqueueKeeps(s: State, t: State, w: Writer, initial: nat)
    requires Invariant(s, initial) && Enqueue(s, t, w)
    ensures Invariant(t, initial)
  {
    hide Numbered, Taken, Applied, Writers, Consecutive, AllOps, Logged;
    assert Writers(s.done) + (s.queue + [w]) == Writers(s.done) + s.queue + [w];
    forall n | 0 <= n <= |s.queue| ensures t.queue[..n] == s.queue[..n] {
    }
  }

  lemma StartKeeps(s: State, t: State, initial: nat)
    requires Invariant(s, initial)
    requires (exists n: nat :: StartGroup(s, t, n)) || (exists ok :: StartAlone(s, t, ok)) || BackgroundError(s, t)
    ensures Invariant(t, initial)
  {
    hide Numbered, Taken, Applied, Writers, Consecutive, AllOps, Logged;
  }

  lemma LogKeeps(s: State, t: State, ok: bool, kept: bool, initial: nat)
    requires Invariant(s, initial) && AppendToLog(s, t, ok, kept)
    ensures Invariant(t, initial)
  {
    hide Numbered, Taken, Applied, Writers, Consecutive, AllOps, RecordHolds;
    var g := s.phase.group;
    NumberedStart(g);
    forall i | 0 <= i < |s.done| ensures Logged(t.log, s.done[i]) {
      assert Logged(s.log, s.done[i]);
      if s.done[i].ok && s.done[i].first.Some? {
        var j :| 0 <= j < |s.log| && RecordHolds(s.log[j], s.done[i].first.value, s.done[i].writer.Ops())
                 && (s.done[i].writer.sync ==> s.log[j].synced);
        assert t.log[j] == s.log[j];
      }
    }
  }

  lemma NumberedStart(g: Group)
    requires g.first + |g.ops| <= MAX_SEQUENCE + 1
    ensures Numbered(g.ops, g.first)[..0] == []
    ensures Numbered(g.ops, g.first)[..|g.ops|] == Numbered(g.ops, g.first)
  {
  }

  lemma SyncKeeps(s: State, t: State, ok: bool, initial: nat)
    requires Invariant(s, initial) && Sync(s, t, ok)
    ensures Invariant(t, initial)
  {
    hide Numbered, Taken, Applied, Writers, Consecutive, AllOps, Logged, UnnumberedAreNull, DistinctIds;
    NumberedStart(s.phase.group);
    forall i | 0 <= i < |s.done| ensures Logged(t.log, s.done[i]) {
      SyncedStaysLogged(s.log, t.log, s.done[i]);
    }
  }

  lemma SyncedStaysLogged(log: seq<LogRecord>, log': seq<LogRecord>, d: Done)
    requires |log'| == |log| && Logged(log, d)
    requires forall j :: 0 <= j < |log| ==>
               log'[j].first == log[j].first && log'[j].ops == log[j].ops && (log[j].synced ==> log'[j].synced)
    ensures Logged(log', d)
  {
    if d.ok && d.first.Some? {
      var j :| 0 <= j < |log| && RecordHolds(log[j], d.first.value, d.writer.Ops()) && (d.writer.sync ==> log[j].synced);
      assert RecordHolds(log'[j], d.first.value, d.writer.Ops());
    }
  }

  lemma InsertKeeps(s: State, t: State, initial: nat)
    requires Invariant(s, initial) && Insert(s, t)
    ensures Invariant(t, initial)
  {
    hide Taken, Applied, Writers, Consecutive, AllOps, Logged, Numbered;
    var g, k := s.phase.group, s.phase.inserted;
    NumberedStart(g);
    var es := Numbered(g.ops, g.first);
    if k < |g.ops| {
      assert es[..k+1] == es[..k] + [es[k]];
      assert Applied(s.done) + es[..k] + [es[k]] == Applied(s.done) + es[..k+1];
    }
  }

  lemma StepKeepsInvariant(s: State, t: State, initial: nat)
    requires Invariant(s, initial) && Step(s, t)
    ensures Invariant(t, initial)
  {
    hide Invariant, StartGroup, StartAlone, AppendToLog, Sync, Insert, Finish, Enqueue, BackgroundError;
    if w :| Enqueue(s, t, w) {
      EnqueueKeeps(s, t, w, initial);
    } else if ok, kept :| AppendToLog(s, t, ok, kept) {
      LogKeeps(s, t, ok, kept, initial);
    } else if ok :| Sync(s, t, ok) {
      SyncKeeps(s, t, ok, initial);
    } else if Insert(s, t) {
      InsertKeeps(s, t, initial);
    } else if Finish(s, t) {
      FinishKeeps(s, t, initial);
    } else {
      StartKeeps(s, t, initial);
    }
  }

  ghost predicate IsRun(run: seq<State>, initial: nat) {
    && run != [] && Initial(run[0], initial)
    && forall i :: 0 <= i < |run| - 1 ==> Step(run[i], run[i+1])
  }

  lemma {:induction false} RunKeepsInvariant(run: seq<State>, initial: nat, k: nat)
    requires IsRun(run, initial) && k < |run|
    ensures Invariant(run[k], initial)
  {
    hide Invariant, Step;
    if k == 0 {
      InitialInvariant(run[0], initial);
    } else {
      RunKeepsInvariant(run, initial, k - 1);
      assert Step(run[k-1], run[k-1+1]);
      StepKeepsInvariant(run[k-1], run[k], initial);
    }
  }

  // ----- What the invariant says -----

  /** Writes complete in the order their writers arrived, each once. */
  lemma CompletedOnceInOrder(s: State, initial: nat)
    requires Invariant(s, initial)
    ensures |s.done| <= |s.arrived|
    ensures forall i :: 0 <= i < |s.done| ==> s.done[i].writer == s.arrived[i]
    ensures forall i, j :: 0 <= i < j < |s.done| ==> s.done[i].writer.id != s.done[j].writer.id
    ensures forall i, j :: 0 <= i < |s.done| && 0 <= j < |s.queue| ==> s.done[i].writer.id != s.queue[j].id
  {
    forall i | 0 <= i < |s.done| ensures s.done[i].writer == s.arrived[i] {
      assert Writers(s.done)[i] == s.done[i].writer;
    }
    forall j | 0 <= j < |s.queue| ensures s.queue[j] == s.arrived[|s.done| + j] {
    }
  }

  lemma {:induction false} TakenGrows(done: seq<Done>, i: nat, j: nat)
    requires i < j <= |done|
    ensures Taken(done[..i]) + (if done[i].first.Some? then |done[i].writer.Ops()| else 0) <= Taken(done[..j])
  {
    if i + 1 < j {
      TakenGrows(done, i, j - 1);
    }
    assert done[..j][..j-1] == done[..j-1];
  }

  /** No sequence number is handed out twice, not even after a write that failed. */
  lemma NumbersNeverReused(s: State, initial: nat, i: nat, j: nat)
    requires Invariant(s, initial) && i < j < |s.done| && s.done[i].first.Some? && s.done[j].first.Some?
    ensures s.done[i].first.value + |s.done[i].writer.Ops()| <= s.done[j].first.value
    ensures s.done[j].first.value + |s.done[j].writer.Ops()| <= s.lastSequence + 1
  {
    TakenGrows(s.done, i, j);
    TakenGrows(s.done, j, |s.done|);
    assert s.done[..|s.done|] == s.done;
  }

  lemma {:induction false} AppliedInOrder(done: seq<Done>, initial: nat)
    requires Consecutive(done, initial)
    ensures forall i :: 0 <= i < |Applied(done)| ==> Applied(done)[i].key.sequence <= initial + Taken(done)
    ensures forall i, j :: 0 <= i < j < |Applied(done)| ==> Applied(done)[i].key.sequence < Applied(done)[j].key.sequence
  {
    if done != [] {
      var init, d := done[..|done|-1], done[|done|-1];
      forall i | 0 <= i < |init| ensures done[..i] == init[..i] {
      }
      AppliedInOrder(init, initial);
      assert done[..|done|-1] == init;
      assert Applied(done) == Applied(init) + EntriesOf(d);
    }
  }

  /** Entries reach the memtable in the order of their sequence numbers, and those a reader at the last sequence
      number can see are exactly those of the successful writes completed so far: no write is seen in part. */
  lemma VisibleWritesAreWhole(s: State, initial: nat)
    requires Invariant(s, initial)
    ensures forall i, j :: 0 <= i < j < |s.mem| ==> s.mem[i].key.sequence < s.mem[j].key.sequence
    ensures |Applied(s.done)| <= |s.mem|
    ensures forall i :: 0 <= i < |s.mem| ==> (s.mem[i].key.sequence <= s.lastSequence <==> i < |Applied(s.done)|)
    ensures s.mem[..|Applied(s.done)|] == Applied(s.done)
  {
    AppliedInOrder(s.done, initial);
  }

  /** The updates of all the writes acknowledged so far, in order. */
  function Acknowledged(done: seq<Done>): seq<Op> {
    if done == [] then []
    else Acknowledged(done[..|done|-1]) + if done[|done|-1].ok then done[|done|-1].writer.Ops() else []
  }

  lemma {:induction false} AppliedTell(done: seq<Done>, initial: nat)
    requires Consecutive(done, initial) && UnnumberedAreNull(done) && initial + Taken(done) <= MAX_SEQUENCE
    ensures Tell(Applied(done), Acknowledged(done))
  {
    hide Tell;
    if done == [] {
      NothingTold();
    } else {
      var init, d := done[..|done|-1], done[|done|-1];
      forall i | 0 <= i < |init| ensures done[..i] == init[..i] {
      }
      AppliedTell(init, initial);
      NothingTold();
      if d.ok && d.first.Some? {
        NumberedTell(d.writer.Ops(), d.first.value);
      }
      TellAppend(Applied(init), Acknowledged(init), EntriesOf(d), if d.ok then d.writer.Ops() else []);
    }
  }

  lemma NothingTold()
    ensures Tell([], [])
  {
  }

  /** At any point a reader at the last sequence number finds in the memtable, of every key, what the last acknowledged
      update of it says. */
  lemma AcknowledgedReadsBack(s: State, initial: nat)
    requires Invariant(s, initial)
    ensures Leaves(Elements(s.mem), s.lastSequence, Acknowledged(s.done))
  {
    var es, ops := Applied(s.done), Acknowledged(s.done);
    VisibleWritesAreWhole(s, initial);
    AppliedTell(s.done, initial);
    hide Tell, Invariant, Applied, Acknowledged, Lookup, BytewiseRank, Leaves;
    assert |es| == |ops| by { SameCount(es, ops); }
    assert forall i :: 0 <= i < |es| ==> es[i] == s.mem[i];
    LastDecides(es, ops, |es|, s.lastSequence);
    assert ops[..|es|] == ops;
    forall u ensures Lookup(Elements(s.mem), u, s.lastSequence) == Lookup(Elements(es), u, s.lastSequence) {
      BeyondIsUnseen(s.mem, es, u, s.lastSequence);
    }
    SameLeaves(Elements(s.mem), Elements(es), s.lastSequence, ops);
  }

  /** Entries beyond the sequence number make no difference to a reader at it. */
  lemma BeyondIsUnseen(mem: seq<Entry>, es: seq<Entry>, u: UserKey, s: nat)
    requires s <= MAX_SEQUENCE && es <= mem && Increasing(mem) && Increasing(es)
    requires forall i :: 0 <= i < |mem| ==> (mem[i].key.sequence <= s <==> i < |es|)
    ensures Lookup(Elements(mem), u, s) == Lookup(Elements(es), u, s)
  {
    hide Lookup, Increasing, OneEntryPerSequence;
    OneEach(es);
    OneEach(mem);
    forall e | Readable(e, u, s) ensures e in Elements(mem) <==> e in Elements(es) {
      if e in Elements(mem) {
        var i :| 0 <= i < |mem| && mem[i] == e;
        assert es[i] == e;
      }
      if e in Elements(es) {
        var i :| 0 <= i < |es| && es[i] == e;
        assert mem[i] == e;
      }
    }
    SameReadableSameLookup(Elements(mem), Elements(es), u, s);
  }

  lemma SameLeaves(a: set<Entry>, b: set<Entry>, s: Sequence, ops: seq<Op>)
    requires Leaves(b, s, ops) && forall u :: Lookup(a, u, s) == Lookup(b, u, s)
    ensures Leaves(a, s, ops)
  {
    hide Lookup, BytewiseRank, LastOfItsKey, Touched;
  }

  lemma SameCount(es: seq<Entry>, ops: seq<Op>)
    requires Tell(es, ops)
    ensures |es| == |ops|
  {
  }

  /** Update `k` of completed write `i` is the last acknowledged one of its key. */
  predicate LastAcknowledged(done: seq<Done>, i: nat, k: nat) {
    && i < |done| && done[i].ok && LastOfItsKey(done[i].writer.Ops(), k)
    && forall j :: i < j < |done| && done[j].ok ==> !Touched(done[j].writer.Ops(), done[i].writer.Ops()[k].key)
  }

  lemma {:induction false} LastAcknowledgedIsLast(done: seq<Done>, i: nat, k: nat) returns (p: nat)
    requires LastAcknowledged(done, i, k)
    ensures LastOfItsKey(Acknowledged(done), p) && Acknowledged(done)[p] == done[i].writer.Ops()[k]
  {
    var init, d := done[..|done|-1], done[|done|-1];
    var before, last := Acknowledged(init), if d.ok then d.writer.Ops() else [];
    assert Acknowledged(done) == before + last;
    hide Acknowledged;
    if i == |init| {
      p := |before| + k;
      LastInLast(before, last, k);
    } else {
      p := LastAcknowledgedIsLast(init, i, k);
      LastUntouched(before, last, p);
    }
  }

  lemma LastInLast(a: seq<Op>, b: seq<Op>, k: nat)
    requires LastOfItsKey(b, k)
    ensures LastOfItsKey(a + b, |a| + k)
  {
    forall j | |a| + k < j < |a + b| ensures (a + b)[j] == b[j - |a|] {
    }
  }

  lemma LastUntouched(a: seq<Op>, b: seq<Op>, p: nat)
    requires LastOfItsKey(a, p) && !Touched(b, a[p].key)
    ensures LastOfItsKey(a + b, p)
  {
    forall j | p < j < |a + b| ensures (a + b)[j].key != a[p].key {
      assert j >= |a| ==> (a + b)[j] == b[j - |a|];
    }
  }

  /** A write that was acknowledged reads back, until a later acknowledged update of the key. */
  lemma AcknowledgedWriteReadsBack(s: State, initial: nat, i: nat, k: nat)
    requires Invariant(s, initial) && LastAcknowledged(s.done, i, k)
    ensures var op := s.done[i].writer.Ops()[k];
      Lookup(Elements(s.mem), BytewiseRank(op.key), s.lastSequence) == if op.Put? then Some(op.value) else None
  {
    hide Invariant, Acknowledged, Lookup, BytewiseRank;
    AcknowledgedReadsBack(s, initial);
    var p := LastAcknowledgedIsLast(s.done, i, k);
  }

  /** A successful write that asked for it was acknowledged only once its record was synced. */
  lemma SyncedBeforeAcknowledged(s: State, initial: nat, i: nat)
    requires Invariant(s, initial) && i < |s.done|
    requires s.done[i].ok && s.done[i].first.Some? && s.done[i].writer.sync
    ensures exists j :: 0 <= j < |s.log| && RecordHolds(s.log[j], s.done[i].first.value, s.done[i].writer.Ops())
                        && s.log[j].synced
  {
    assert Logged(s.log, s.done[i]);
  }

  /** After an error on sync no group starts any more. */
  lemma FailureIsFinal(s: State, t: State)
    requires s.failed && Step(s, t)
    ensures t.failed && (s.phase.Idle? ==> !t.phase.Logging?)
  {
  }

  function Stage(p: Phase): nat {
    match p {
      case Idle => 4
      case Logging(_) => 3
      case Syncing(_) => 2
      case Inserting(_, _) => 1
      case Finishing(_, _, _) => 0
    }
  }

  function LeftToInsert(p: Phase): nat {
    if p.Inserting? && p.inserted <= |p.group.ops| then |p.group.ops| - p.inserted else 0
  }

  /** While writers wait, their leader can always step, and every step it takes brings the front of the queue closer
      to completion. */
  lemma LeaderProgresses(s: State, t: State, initial: nat)
    requires Invariant(s, initial) && LeaderStep(s, t)
    ensures || |t.queue| < |s.queue|
            || (t.queue == s.queue && Stage(t.phase) < Stage(s.phase))
            || (t.queue == s.queue && Stage(t.phase) == Stage(s.phase) && LeftToInsert(t.phase) < LeftToInsert(s.phase))
  {
    hide Numbered, AllOps, AllLogged, LogInOrder, InProgress, Writers, Taken, Applied, Consecutive, DistinctIds;
  }

  lemma LeaderCanStep(s: State, initial: nat) returns (t: State)
    requires Invariant(s, initial) && s.queue != []
    ensures LeaderStep(s, t)
  {
    hide Numbered, AllOps, AllLogged;
    var g := if s.phase.Idle? then Group(1, 0, []) else s.phase.group;
    match s.phase {
      case Idle =>
        t := s.(phase := Finishing(Group(1, s.lastSequence + 1, []), false, false));
        assert StartAlone(s, t, false);
      case Logging(_) =>
        t := s.(phase := Finishing(g, true, false));
        assert AppendToLog(s, t, false, false);
      case Syncing(_) =>
        t := s.(failed := true, phase := Finishing(g, true, false));
        assert Sync(s, t, false);
      case Inserting(_, k) =>
        t := if k < |g.ops| then s.(mem := s.mem + [Numbered(g.ops, g.first)[k]], phase := Inserting(g, k + 1))
             else s.(phase := Finishing(g, true, true));
      case Finishing(_, numbered, ok) =>
        t := s.(lastSequence := if numbered then s.lastSequence + |g.ops| else s.lastSequence,
                done := s.done + Completions(s.queue[..g.n], g.first, numbered, ok),
                queue := s.queue[g.n..], phase := Idle);
    }
  }
}
