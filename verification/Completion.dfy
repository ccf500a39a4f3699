/**
  What the invariant gives over whole runs: no dangling entries, isolation of reused
  slots, buffer conservation, back-pressure, and every job running to its end.
 */
module Completion {
  import opened Basics
  import opened Torrents
  import opened BufferPools
  import opened DiskSystem
  import opened Safety

  /**
    No dangling entries, however writes overlap: an entry points to a live buffer, that of a
    write of the same block which has not yet erased.
   */
  lemma NoDanglingEntries(run: seq<State>, steps: seq<Step>, u: nat, loc: Loc)
    requires Execution(run, steps) && u < |run| && loc in run[u].store
    ensures var j := run[u].store[loc];
      && j in run[u].heap && run[u].Entry(loc) == Some(run[u].heap[j])
      && j in run[u].jobs && run[u].jobs[j].AsyncWriting() && run[u].jobs[j].req.loc == loc
  {
    RunInv(run, steps, u);
    assert JobOk(run[u], run[u].store[loc], run[u].jobs[run[u].store[loc]]);
  }

  /** A hit never serves a block written under an earlier owner of the storage index. */
  lemma SlotReuseIsolation(run: seq<State>, steps: seq<Step>, u: nat, loc: Loc)
    requires Execution(run, steps) && u < |run| && loc in run[u].store
    ensures run[u].Has(loc.torrent)
    ensures var v, j := run[u].Vol(loc.torrent), run[u].store[loc];
      && v.born < j < u && j in run[u].jobs
      && run[u].jobs[j].born == v.born && run[u].jobs[j].torrent == v.torrent
  {
    RunInv(run, steps, u);
    var job := run[u].jobs[run[u].store[loc]];
    assert JobOk(run[u], run[u].store[loc], job) && JobFits(job);
  }

  ghost function AsyncWrites(s: State): set<JobId> {
    set j | j in s.jobs && s.jobs[j].AsyncWriting()
  }

  lemma {:induction false} EntriesHaveOwners(store: map<Loc, JobId>, jobs: Jobs, owners: set<JobId>)
    requires Indexed(store, jobs)
    requires forall loc :: loc in store ==> store[loc] in owners
    ensures |store| <= |owners|
    decreases store.Keys
  {
    if store.Keys != {} {
      var loc :| loc in store;
      var rest := store - {loc};
      assert rest.Keys == store.Keys - {loc};
      EntriesHaveOwners(rest, jobs, owners - {store[loc]});
    }
  }

  /** The pools count the buffers that are out, and the index is no larger than the unfinished writes. */
  lemma BuffersConserved(run: seq<State>, steps: seq<Step>, u: nat)
    requires Execution(run, steps) && u < |run|
    ensures run[u].writePool.size == |run[u].heap| <= BUFFER_COUNT
    ensures run[u].readPool.size == |run[u].readBufs| <= BUFFER_COUNT
    ensures |run[u].store| <= |AsyncWrites(run[u])| <= |run[u].heap|
  {
    RunInv(run, steps, u);
    var s := run[u];
    EntriesHaveOwners(s.store, s.jobs, AsyncWrites(s));
    forall j | j in AsyncWrites(s) ensures j in s.heap.Keys {
      assert JobOk(s, j, s.jobs[j]);
    }
    SubsetSize(AsyncWrites(s), s.heap.Keys);
  }

  lemma {:induction false} SubsetSize(a: set<JobId>, b: set<JobId>)
    requires a <= b
    ensures |a| <= |b|
  {
    if a != {} {
      var x :| x in a;
      SubsetSize(a - {x}, b - {x});
    }
  }

  // ---------- every job runs to its end ----------

  /** Steps taken by the thread pools, the io_context and buffer holders, as opposed to calls. */
  predicate Internal(step: Step) {
    !(step.SAttach? || step.SDetach? || step.SWrite? || step.SRead? || step.SHash?)
  }

  function Actor(step: Step): JobId
    requires Internal(step)
  {
    step.j
  }

  /** Nothing is left of a job but its record. */
  predicate Over(s: State, j: JobId) {
    j in s.jobs && s.jobs[j].stage.Handled? && j !in s.heap && j !in s.readBufs
  }

  lemma WriteProgress(s: State, j: JobId, job: Job)
    requires j in s.jobs && job == s.jobs[j] && job.stage.Writing? && JobOk(s, j, job) && JobFits(job)
    ensures CanFlush(s, j, 1) || CanFailFlush(s, j) || CanFinishWrite(s, j)
  {
    BlocksTile(job.torrent, job.req.loc, 0);
  }

  lemma ReadProgress(s: State, j: JobId, job: Job)
    requires j in s.jobs && job == s.jobs[j] && job.stage.Reading? && JobOk(s, j, job) && JobFits(job)
    ensures CanReadSome(s, j, 1) || CanFinishRead(s, j)
  {
  }

  lemma HashProgress(s: State, j: JobId, job: Job)
    requires j in s.jobs && job == s.jobs[j] && job.stage.Hashing? && JobOk(s, j, job) && JobFits(job)
    ensures CanHashLookup(s, j) || CanFinishHash(s, j) || CanHashSome(s, j, 1) || CanHashUpdate(s, j)
  {
  }

  /** A job that is not over can always take a step of its own. */
  lemma Progress(s: State, j: JobId) returns (step: Step)
    requires Inv(s) && j in s.jobs && !Over(s, j)
    ensures Internal(step) && Actor(step) == j && Enabled(s, step)
  {
    var job := s.jobs[j];
    assert JobOk(s, j, job) && JobFits(job);
    match job.stage {
      case Writing(_, _, _) =>
        WriteProgress(s, j, job);
        step := if CanFlush(s, j, 1) then SFlush(j, 1) else if CanFailFlush(s, j) then SFailFlush(j) else SFinishWrite(j);
      case Reading(_, _, _, _) =>
        ReadProgress(s, j, job);
        step := if CanReadSome(s, j, 1) then SReadSome(j, 1) else SFinishRead(j);
      case Hashing(_, _, _, _) =>
        HashProgress(s, j, job);
        step := if CanHashLookup(s, j) then SHashLookup(j) else if CanFinishHash(s, j) then SFinishHash(j)
                else if CanHashSome(s, j, 1) then SHashSome(j, 1) else SHashUpdate(j);
      case Posted(_) => step := SHandle(j);
      case Handled(_) => step := if j in s.heap then SFreeWrite(j) else SFreeRead(j);
    }
  }

  /** An upper bound on the steps that a job still takes. */
  function StageRank(job: Job): int {
    match job.stage
    case Writing(_, done, failed) => 2 + (if job.req.WriteReq? then job.req.size - done else 0) + (if failed then 0 else 1)
    case Reading(_, from, upto, done) => 2 + upto - from - done
    case Hashing(round, _, miss, _) =>
      2 + (if job.req.HashReq? then (Rounds(job.torrent, job.req.piece) - round) * (BLOCK + 2) else 0)
      - (if miss.Some? then 1 + |miss.value.got| else 0)
    case Posted(_) => 1
    case Handled(_) => 0
  }

  function Rank(s: State, j: JobId): int
    requires j in s.jobs
  {
    StageRank(s.jobs[j]) + (if j in s.heap then 1 else 0) + (if j in s.readBufs then 1 else 0)
  }

  lemma StageRankBounds(job: Job)
    requires JobFits(job)
    ensures if job.Running() then StageRank(job) >= 2 else StageRank(job) == if job.stage.Posted? then 1 else 0
  {
    if job.stage.Hashing? && job.stage.miss.Some? {
      var left := Rounds(job.torrent, job.req.piece) - job.stage.round;
      assert left * (BLOCK + 2) >= BLOCK + 2;
    }
  }

  lemma RankIsNatural(s: State, j: JobId)
    requires j in s.jobs && JobFits(s.jobs[j])
    ensures Rank(s, j) >= 0 && (Rank(s, j) == 0 <==> Over(s, j))
  {
    StageRankBounds(s.jobs[j]);
  }

  /** The same job: nothing but its stage has changed. */
  predicate SameJob(job: Job, job': Job) {
    job'.req == job.req && job'.idx == job.idx && job'.torrent == job.torrent && job'.born == job.born
  }

  /** Job `j` alone changes, and comes nearer to its end. */
  ghost predicate Advances(s: State, j: JobId, s': State) {
    && j in s.jobs && j in s'.jobs && s'.jobs == s.jobs[j := s'.jobs[j]] && SameJob(s.jobs[j], s'.jobs[j])
    && s'.heap.Keys - {j} == s.heap.Keys - {j} && s'.readBufs - {j} == s.readBufs - {j}
    && Rank(s', j) < Rank(s, j)
  }

  lemma StageAdvances(s: State, j: JobId, s': State, stage: Stage)
    requires j in s.jobs && s'.jobs == s.jobs[j := s.jobs[j].(stage := stage)]
    requires s'.heap == s.heap && s'.readBufs == s.readBufs
    requires StageRank(s.jobs[j].(stage := stage)) < StageRank(s.jobs[j])
    ensures Advances(s, j, s')
  {
  }

  lemma WriteAdvances(s: State, j: JobId, n: nat)
    requires j in s.jobs && JobFits(s.jobs[j])
    ensures CanFlush(s, j, n) ==> Advances(s, j, Flush(s, j, n))
    ensures CanFailFlush(s, j) ==> Advances(s, j, FailFlush(s, j))
    ensures CanFinishWrite(s, j) ==> Advances(s, j, FinishWrite(s, j))
  {
    if CanFlush(s, j, n) {
      StageAdvances(s, j, Flush(s, j, n), Flush(s, j, n).jobs[j].stage);
    }
    if CanFailFlush(s, j) {
      StageAdvances(s, j, FailFlush(s, j), FailFlush(s, j).jobs[j].stage);
    }
    if CanFinishWrite(s, j) {
      StageAdvances(s, j, FinishWrite(s, j), FinishWrite(s, j).jobs[j].stage);
    }
  }

  lemma ReadAdvances(s: State, j: JobId, n: nat)
    requires j in s.jobs && JobFits(s.jobs[j])
    ensures CanReadSome(s, j, n) ==> Advances(s, j, ReadSome(s, j, n))
    ensures CanFinishRead(s, j) ==> Advances(s, j, FinishRead(s, j))
  {
    if CanReadSome(s, j, n) {
      StageAdvances(s, j, ReadSome(s, j, n), ReadSome(s, j, n).jobs[j].stage);
    }
    if CanFinishRead(s, j) {
      StageAdvances(s, j, FinishRead(s, j), FinishRead(s, j).jobs[j].stage);
    }
  }

  lemma HashReadAdvances(s: State, j: JobId, n: nat)
    requires j in s.jobs && JobFits(s.jobs[j])
    ensures CanHashLookup(s, j) ==> Advances(s, j, HashLookup(s, j))
    ensures CanHashSome(s, j, n) ==> Advances(s, j, HashSome(s, j, n))
  {
    if CanHashLookup(s, j) {
      StageAdvances(s, j, HashLookup(s, j), HashLookup(s, j).jobs[j].stage);
    }
    if CanHashSome(s, j, n) {
      StageAdvances(s, j, HashSome(s, j, n), HashSome(s, j, n).jobs[j].stage);
    }
  }

  lemma HashEndAdvances(s: State, j: JobId)
    requires j in s.jobs && JobFits(s.jobs[j]) && OnItsStorage(s.slots.storages, s.jobs[j])
    ensures CanHashUpdate(s, j) ==> Advances(s, j, HashUpdate(s, j))
    ensures CanFinishHash(s, j) ==> Advances(s, j, FinishHash(s, j))
  {
    StageRankBounds(s.jobs[j]);
    if CanHashUpdate(s, j) {
      StageAdvances(s, j, HashUpdate(s, j), HashUpdate(s, j).jobs[j].stage);
    }
    if CanFinishHash(s, j) {
      StageAdvances(s, j, FinishHash(s, j), FinishHash(s, j).jobs[j].stage);
    }
  }

  lemma EndAdvances(s: State, j: JobId)
    requires j in s.jobs
    ensures CanHandle(s, j) ==> Advances(s, j, Handle(s, j))
    ensures CanFreeWrite(s, j) ==> Advances(s, j, FreeWrite(s, j))
    ensures CanFreeRead(s, j) ==> Advances(s, j, FreeRead(s, j))
  {
    if CanHandle(s, j) {
      StageAdvances(s, j, Handle(s, j), Handle(s, j).jobs[j].stage);
    }
    if CanFreeWrite(s, j) {
      assert s.jobs == s.jobs[j := s.jobs[j]];
    }
    if CanFreeRead(s, j) {
      assert s.jobs == s.jobs[j := s.jobs[j]];
    }
  }

  lemma TransferAdvances(s: State, step: Step, j: JobId)
    requires Internal(step) && Actor(step) == j && Enabled(s, step) && j in s.jobs && JobFits(s.jobs[j])
    requires step.SFlush? || step.SFailFlush? || step.SFinishWrite? || step.SReadSome? || step.SFinishRead?
    ensures Advances(s, j, Next(s, step))
  {
    match step {
      case SFlush(_, n) => WriteAdvances(s, j, n);
      case SFailFlush(_) => WriteAdvances(s, j, 0);
      case SFinishWrite(_) => WriteAdvances(s, j, 0);
      case SReadSome(_, n) => ReadAdvances(s, j, n);
      case SFinishRead(_) => ReadAdvances(s, j, 0);
    }
  }

  lemma HashStepAdvances(s: State, step: Step, j: JobId)
    requires Internal(step) && Actor(step) == j && Enabled(s, step) && j in s.jobs && JobFits(s.jobs[j]) && JobOk(s, j, s.jobs[j])
    requires step.SHashLookup? || step.SHashSome? || step.SHashUpdate? || step.SFinishHash?
    ensures Advances(s, j, Next(s, step))
  {
    match step {
      case SHashLookup(_) => HashReadAdvances(s, j, 0);
      case SHashSome(_, n) => HashReadAdvances(s, j, n);
      case SHashUpdate(_) => HashEndAdvances(s, j);
      case SFinishHash(_) => HashEndAdvances(s, j);
    }
  }

  lemma EndStepAdvances(s: State, step: Step, j: JobId)
    requires Internal(step) && Actor(step) == j && Enabled(s, step) && j in s.jobs
    requires step.SHandle? || step.SFreeWrite? || step.SFreeRead?
    ensures Advances(s, j, Next(s, step))
  {
    EndAdvances(s, j);
  }

  /** An internal step brings its own job nearer to its end. */
  lemma InternalStepAdvances(s: State, step: Step)
    requires Inv(s) && Internal(step) && Enabled(s, step)
    ensures Advances(s, Actor(step), Next(s, step))
  {
    var j := Actor(step);
    assert JobFits(s.jobs[j]) && JobOk(s, j, s.jobs[j]);
    if step.SFlush? || step.SFailFlush? || step.SFinishWrite? || step.SReadSome? || step.SFinishRead? {
      TransferAdvances(s, step, j);
    } else if step.SHashLookup? || step.SHashSome? || step.SHashUpdate? || step.SFinishHash? {
      HashStepAdvances(s, step, j);
    } else {
      EndStepAdvances(s, step, j);
    }
  }

  lemma OthersKeepRank(s: State, j: JobId, s': State, i: JobId)
    requires Advances(s, j, s') && i != j
    ensures (i in s'.jobs <==> i in s.jobs) && (i in s.jobs ==> Rank(s', i) == Rank(s, i))
  {
    assert i in s'.heap.Keys - {j} <==> i in s.heap.Keys - {j};
    assert i in s'.readBufs - {j} <==> i in s.readBufs - {j};
  }

  predicate LeavesJob(s: State, i: JobId, s': State) {
    && (i in s'.jobs <==> i in s.jobs) && (i in s.jobs ==> s'.jobs[i] == s.jobs[i])
    && (i in s'.heap <==> i in s.heap) && (i in s'.readBufs <==> i in s.readBufs)
  }

  lemma WriteCallLeavesJob(s: State, loc: Loc, data: seq<byte>, o: Option<Observer>, mallocOk: bool, junk: seq<byte>, i: JobId)
    requires CanIssueWrite(s, loc, data, junk) && i != s.now
    ensures LeavesJob(s, i, IssueWrite(s, loc, data, o, mallocOk, junk))
  {
  }

  lemma ReadCallLeavesJob(s: State, idx: nat, piece: nat, start: int, length: int, mallocOk: bool, junk: seq<byte>, i: JobId)
    requires CanIssueRead(s, idx, piece, start, length, junk) && i != s.now
    ensures LeavesJob(s, i, IssueRead(s, idx, piece, start, length, mallocOk, junk))
  {
    if 0 < length && 0 <= start {
      FrontBounds(s, idx, piece, start - Within(start), Within(start), length, junk);
    }
  }

  /** A call adds at most the job named by the present moment and touches no other. */
  lemma CallLeavesJobs(s: State, step: Step, i: JobId)
    requires !Internal(step) && Enabled(s, step) && i != s.now
    ensures LeavesJob(s, i, Next(s, step))
  {
    match step {
      case SAttach(_, _) =>
      case SDetach(_) =>
      case SWrite(loc, data, o, mallocOk, junk) => WriteCallLeavesJob(s, loc, data, o, mallocOk, junk, i);
      case SRead(idx, piece, start, length, mallocOk, junk) =>
        ReadCallLeavesJob(s, idx, piece, start, length, mallocOk, junk, i);
      case SHash(_, _, _) =>
    }
  }

  predicate IsStepOf(step: Step, j: JobId) {
    Internal(step) && Actor(step) == j
  }

  // ---------- a job through the steps of a run ----------

  lemma OthersKeepJob(s: State, step: Step, s': State, j: JobId)
    requires Inv(s) && Enabled(s, step) && s' == Next(s, step) && j != s.now && !IsStepOf(step, j)
    ensures j in s'.jobs <==> j in s.jobs
    ensures j in s.jobs ==> s'.jobs[j] == s.jobs[j]
  {
    if Internal(step) {
      InternalStepAdvances(s, step);
    } else {
      CallLeavesJobs(s, step, j);
    }
  }

  lemma JobKeepsRequest(s: State, step: Step, s': State, j: JobId)
    requires Inv(s) && Enabled(s, step) && s' == Next(s, step) && j in s.jobs && j in s'.jobs && j != s.now
    ensures SameJob(s.jobs[j], s'.jobs[j])
  {
    if IsStepOf(step, j) {
      InternalStepAdvances(s, step);
    } else {
      OthersKeepJob(s, step, s', j);
    }
  }

  /** The kind of job that a call makes. */
  predicate BornOf(step: Step, job: Job) {
    match job.req
    case WriteReq(loc, size) => step.SWrite? && loc == step.loc && size == |step.data| && job.idx == loc.torrent && job.stage.Writing?
    case ReadReq(piece, start, length) =>
      step.SRead? && job.idx == step.idx && piece == step.piece && start == step.start && length == step.length
    case HashReq(piece) => step.SHash? && job.idx == step.idx && piece == step.piece
  }

  lemma ReadCallKind(s: State, idx: nat, piece: nat, start: int, length: int, mallocOk: bool, junk: seq<byte>)
    requires CanIssueRead(s, idx, piece, start, length, junk)
    ensures var s' := IssueRead(s, idx, piece, start, length, mallocOk, junk);
      s.now in s'.jobs && s'.jobs[s.now].req == ReadReq(piece, start, length) && s'.jobs[s.now].idx == idx
  {
    if 0 < length && 0 <= start {
      FrontBounds(s, idx, piece, start - Within(start), Within(start), length, junk);
    }
  }

  lemma WriteCallKind(s: State, step: Step)
    requires step.SWrite? && Enabled(s, step)
    ensures s.now in Next(s, step).jobs && BornOf(step, Next(s, step).jobs[s.now])
  {
  }

  lemma HashCallKind(s: State, step: Step)
    requires step.SHash? && Enabled(s, step)
    ensures s.now in Next(s, step).jobs && BornOf(step, Next(s, step).jobs[s.now])
  {
  }

  lemma CallKind(s: State, step: Step)
    requires !Internal(step) && Enabled(s, step) && s.now !in s.jobs && s.now in Next(s, step).jobs
    ensures BornOf(step, Next(s, step).jobs[s.now])
  {
    match step {
      case SAttach(_, _) =>
      case SDetach(_) =>
      case SWrite(_, _, _, _, _) => WriteCallKind(s, step);
      case SRead(idx, piece, start, length, mallocOk, junk) => ReadCallKind(s, idx, piece, start, length, mallocOk, junk);
      case SHash(_, _, _) => HashCallKind(s, step);
    }
  }

  lemma JobBirth(s: State, step: Step, s': State)
    requires Inv(s) && Enabled(s, step) && s' == Next(s, step) && s.now in s'.jobs
    ensures BornOf(step, s'.jobs[s.now])
  {
    NameIsFresh(s);
    if Internal(step) {
      InternalStepAdvances(s, step);
    } else {
      CallKind(s, step);
    }
  }

  lemma EntryIffIndexed(s: State, loc: Loc)
    requires Inv(s)
    ensures s.Entry(loc).Some? <==> loc in s.store
  {
    if loc in s.store {
      assert JobOk(s, s.store[loc], s.jobs[s.store[loc]]);
    }
  }

  predicate Answered(job: Job) {
    job.stage.Posted? || job.stage.Handled?
  }

  lemma OwnStepKeepsReply(s: State, step: Step, s': State, j: JobId)
    requires Enabled(s, step) && s' == Next(s, step) && IsStepOf(step, j) && j in s.jobs && j in s'.jobs && Answered(s.jobs[j])
    ensures Answered(s'.jobs[j]) && s'.jobs[j].stage.reply == s.jobs[j].stage.reply
  {
  }

  /** An answer, once given, stays: what is posted is what the handler is called with. */
  lemma ReplyStays(s: State, step: Step, s': State, j: JobId)
    requires Inv(s) && Enabled(s, step) && s' == Next(s, step) && j in s.jobs && j in s'.jobs && j != s.now && Answered(s.jobs[j])
    ensures Answered(s'.jobs[j]) && s'.jobs[j].stage.reply == s.jobs[j].stage.reply
  {
    if IsStepOf(step, j) {
      OwnStepKeepsReply(s, step, s', j);
    } else {
      OthersKeepJob(s, step, s', j);
    }
  }

  lemma RunReplyStays(run: seq<State>, steps: seq<Step>, u: nat, j: JobId)
    requires Execution(run, steps) && j + 1 < u < |run| && j in run[u - 1].jobs && j in run[u].jobs && Answered(run[u - 1].jobs[j])
    ensures Answered(run[u].jobs[j]) && run[u].jobs[j].stage.reply == run[u - 1].jobs[j].stage.reply
  {
    RunInv(run, steps, u - 1);
    assert StepAt(run, steps, u - 1);
    ReplyStays(run[u - 1], steps[u - 1], run[u], j);
  }

  /** A job that was there before the last step is still the same job. */
  lemma RunJobStays(run: seq<State>, steps: seq<Step>, u: nat, j: JobId)
    requires Execution(run, steps) && j + 1 < u < |run| && j in run[u].jobs
    ensures j in run[u - 1].jobs && SameJob(run[u - 1].jobs[j], run[u].jobs[j])
  {
    RunInv(run, steps, u - 1);
    assert StepAt(run, steps, u - 1);
    RankStep(run[u - 1], steps[u - 1], j);
    JobKeepsRequest(run[u - 1], steps[u - 1], run[u], j);
  }

  /** The step that made a job. */
  lemma RunJobBirth(run: seq<State>, steps: seq<Step>, j: JobId)
    requires Execution(run, steps) && j + 1 < |run| && j in run[j + 1].jobs
    ensures run[j].now == j && Enabled(run[j], steps[j]) && run[j + 1] == Next(run[j], steps[j])
    ensures BornOf(steps[j], run[j + 1].jobs[j])
  {
    RunInv(run, steps, j);
    assert StepAt(run, steps, j);
    JobBirth(run[j], steps[j], run[j + 1]);
  }

  /** Steps that job `j` itself took between its call and moment `u`. */
  function OwnSteps(steps: seq<Step>, j: JobId, u: nat): nat
    requires u <= |steps|
  {
    if u <= j + 1 then 0 else OwnSteps(steps, j, u - 1) + if IsStepOf(steps[u - 1], j) then 1 else 0
  }

  lemma RankStep(s: State, step: Step, j: JobId)
    requires Inv(s) && Enabled(s, step) && j != s.now
    ensures j in Next(s, step).jobs <==> j in s.jobs
    ensures j in s.jobs ==> Rank(Next(s, step), j) + (if IsStepOf(step, j) then 1 else 0) <= Rank(s, j)
  {
    if Internal(step) {
      InternalStepAdvances(s, step);
      if j != Actor(step) {
        OthersKeepRank(s, Actor(step), Next(s, step), j);
      }
    } else {
      CallLeavesJobs(s, step, j);
    }
  }

  lemma RunRankStep(run: seq<State>, steps: seq<Step>, j: JobId, u: nat)
    requires Execution(run, steps) && j != u < |steps|
    ensures j in run[u + 1].jobs <==> j in run[u].jobs
    ensures j in run[u].jobs ==> Rank(run[u + 1], j) + (if IsStepOf(steps[u], j) then 1 else 0) <= Rank(run[u], j)
  {
    RunInv(run, steps, u);
    assert StepAt(run, steps, u);
    RankStep(run[u], steps[u], j);
  }

  lemma {:induction false} OwnStepsSpendRank(run: seq<State>, steps: seq<Step>, j: JobId, u: nat)
    requires Execution(run, steps) && j < u < |run| && j in run[u].jobs
    ensures j in run[j + 1].jobs
    ensures OwnSteps(steps, j, u) + Rank(run[u], j) <= Rank(run[j + 1], j)
    decreases u
  {
    if u > j + 1 {
      RunRankStep(run, steps, j, u - 1);
      OwnStepsSpendRank(run, steps, j, u - 1);
    }
  }

  /**
    Whatever else happens, a job takes at most as many steps as its rank at issue, and one that
    has taken them all is over: it holds nothing and its handler has been called exactly once.
   */
  lemma OwnStepsBounded(run: seq<State>, steps: seq<Step>, j: JobId, u: nat)
    requires Execution(run, steps) && j < u < |run| && j in run[u].jobs
    ensures j in run[j + 1].jobs && 0 <= Rank(run[u], j)
    ensures OwnSteps(steps, j, u) <= Rank(run[j + 1], j) - Rank(run[u], j) <= Rank(run[j + 1], j)
    ensures OwnSteps(steps, j, u) == Rank(run[j + 1], j) ==> Over(run[u], j) && run[u].calls[j] == 1
    ensures Rank(run[u], j) == 0 <==> Over(run[u], j)
  {
    OwnStepsSpendRank(run, steps, j, u);
    assert JobOk(run[u], j, run[u].jobs[j]) && JobFits(run[u].jobs[j]) by {
      RunInv(run, steps, u);
    }
    RankIsNatural(run[u], j);
  }

  /** Every handler call in a run is for a finished job, and each finished job has exactly one. */
  lemma HandlersCalledExactlyOnce(run: seq<State>, steps: seq<Step>, u: nat, j: JobId)
    requires Execution(run, steps) && u < |run|
    ensures run[u].calls[j] <= 1
    ensures run[u].calls[j] == 1 <==> j in run[u].jobs && run[u].jobs[j].stage.Handled?
  {
    RunInv(run, steps, u);
    if j in run[u].jobs {
      assert JobOk(run[u], j, run[u].jobs[j]);
    }
  }

  /** No internal step is left. */
  ghost predicate Quiet(s: State) {
    forall step :: Internal(step) ==> !Enabled(s, step)
  }

  /**
    When no internal step is left, every accepted job has called its handler exactly once
    and nothing is held: the store buffer and both pools are empty.
   */
  lemma QuietMeansDone(run: seq<State>, steps: seq<Step>, u: nat)
    requires Execution(run, steps) && u < |run|
    requires Quiet(run[u])
    ensures forall j :: j in run[u].jobs ==> Over(run[u], j) && run[u].calls[j] == 1
    ensures run[u].store == map[] && run[u].heap == map[] && run[u].readBufs == {}
    ensures run[u].writePool.size == 0 && run[u].readPool.size == 0
  {
    var s := run[u];
    RunInv(run, steps, u);
    forall j | j in s.jobs ensures Over(s, j) && s.calls[j] == 1 {
      if !Over(s, j) {
        var step := Progress(s, j);
        assert false;
      }
      assert JobOk(s, j, s.jobs[j]);
    }
    assert forall loc :: loc !in s.store;
    assert s.heap.Keys == {} && s.readBufs == {};
  }

  // ---------- rest can be reached, and is reached ----------

  /** Performing one more step. */
  lemma Extend(run: seq<State>, steps: seq<Step>, step: Step) returns (run': seq<State>, steps': seq<Step>)
    requires Execution(run, steps) && Enabled(run[|steps|], step)
    ensures run' == run + [Next(run[|steps|], step)] && steps' == steps + [step] && Execution(run', steps')
  {
    run', steps' := run + [Next(run[|steps|], step)], steps + [step];
    forall i | 0 <= i < |steps'| ensures StepAt(run', steps', i) {
      if i < |steps| {
        assert StepAt(run, steps, i);
      }
    }
  }

  /** The ranks of the jobs below `n` together; jobs are numbered by the moments of their calls. */
  function RankBelow(s: State, n: nat): int {
    if n == 0 then 0 else RankBelow(s, n - 1) + if n - 1 in s.jobs then Rank(s, n - 1) else 0
  }

  /** An upper bound on the internal steps that the backend can still take. */
  function TotalRank(s: State): int {
    RankBelow(s, s.now)
  }

  lemma {:induction false} RankBelowIsNatural(s: State, n: nat)
    requires Shaped(s.jobs)
    ensures RankBelow(s, n) >= 0
  {
    if n > 0 {
      RankBelowIsNatural(s, n - 1);
      if n - 1 in s.jobs {
        RankIsNatural(s, n - 1);
      }
    }
  }

  lemma {:induction false} AdvanceSpends(s: State, j: JobId, s': State, n: nat)
    requires Advances(s, j, s')
    ensures RankBelow(s', n) + (if j < n then 1 else 0) <= RankBelow(s, n)
  {
    if n > 0 {
      AdvanceSpends(s, j, s', n - 1);
      if n - 1 != j {
        OthersKeepRank(s, j, s', n - 1);
      }
    }
  }

  lemma AdvanceLowersTotal(s: State, j: JobId, s': State)
    requires Advances(s, j, s') && j < s.now && s'.now == s.now + 1 && s.now !in s.jobs
    ensures TotalRank(s') + 1 <= TotalRank(s)
  {
    AdvanceSpends(s, j, s', s.now);
    OthersKeepRank(s, j, s', s.now);
  }

  lemma InternalStepLowersTotal(s: State, step: Step)
    requires Inv(s) && Internal(step) && Enabled(s, step)
    ensures TotalRank(Next(s, step)) + 1 <= TotalRank(s)
  {
    InternalStepAdvances(s, step);
    StepTicks(s, step);
    NameIsFresh(s);
    assert Actor(step) < s.now by {
      assert JobOk(s, Actor(step), s.jobs[Actor(step)]);
    }
    AdvanceLowersTotal(s, Actor(step), Next(s, step));
  }

  lemma RunTotalFalls(run: seq<State>, steps: seq<Step>, u: nat)
    requires Execution(run, steps) && 0 < u < |run| && Internal(steps[u - 1])
    ensures TotalRank(run[u]) + 1 <= TotalRank(run[u - 1])
  {
    RunInv(run, steps, u - 1);
    assert StepAt(run, steps, u - 1);
    InternalStepLowersTotal(run[u - 1], steps[u - 1]);
  }

  /** No stretch of internal steps is longer than the ranks of the jobs at its start together. */
  lemma {:induction false} InternalStepsBounded(run: seq<State>, steps: seq<Step>, u: nat, w: nat)
    requires Execution(run, steps) && u <= w < |run| && forall i :: u <= i < w ==> Internal(steps[i])
    ensures 0 <= TotalRank(run[w]) && w - u + TotalRank(run[w]) <= TotalRank(run[u])
    decreases w
  {
    assert Shaped(run[w].jobs) by {
      RunInv(run, steps, w);
    }
    RankBelowIsNatural(run[w], run[w].now);
    if u < w {
      InternalStepsBounded(run, steps, u, w - 1);
      RunTotalFalls(run, steps, w);
    }
  }

  /** From every reachable state the backend can come to rest by internal steps alone. */
  lemma {:induction false} RestIsReachable(run: seq<State>, steps: seq<Step>) returns (run': seq<State>, steps': seq<Step>)
    requires Execution(run, steps)
    ensures Execution(run', steps') && run <= run' && steps <= steps' && Quiet(run'[|steps'|])
    ensures forall i :: |steps| <= i < |steps'| ==> Internal(steps'[i])
    ensures |steps'| - |steps| <= TotalRank(run[|steps|])
    decreases TotalRank(run[|steps|])
  {
    var s := run[|steps|];
    InternalStepsBounded(run, steps, |steps|, |steps|);
    if Quiet(s) {
      run', steps' := run, steps;
    } else {
      var step :| Internal(step) && Enabled(s, step);
      var run1, steps1 := Extend(run, steps, step);
      InternalStepsBounded(run1, steps1, |steps|, |steps1|);
      run', steps' := RestIsReachable(run1, steps1);
    }
  }

  // ---------- back-pressure in the whole system ----------

  /** What a step does to the write pool. */
  function PoolOp(step: Step): Option<Op> {
    match step
    case SWrite(_, _, o, mallocOk, _) => Some(Watch(mallocOk, o))
    case SFreeWrite(_) => Some(Free)
    case _ => None
  }

  lemma PoolStep(s: State, step: Step)
    requires Enabled(s, step)
    ensures match PoolOp(step)
      case None => Next(s, step).writePool == s.writePool
      case Some(op) => CanDo(s.writePool, op) && Next(s, step).writePool == Do(s.writePool, op)
  {
    match step {
      case SAttach(_, _) =>
      case SWrite(_, _, _, _, _) =>
      case SFlush(_, _) =>
      case SRead(_, _, _, _, _, _) => ReadCallPool(s, step);
      case SHash(_, _, _) =>
      case SHashLookup(_) =>
      case _ =>
    }
  }

  lemma ReadCallPool(s: State, step: Step)
    requires step.SRead? && Enabled(s, step)
    ensures Next(s, step).writePool == s.writePool
  {
  }

  /** The calls that the first `u` steps make on the write pool. */
  function PoolOps(steps: seq<Step>, u: nat): seq<Op>
    requires u <= |steps|
  {
    if u == 0 then []
    else PoolOps(steps, u - 1) + match PoolOp(steps[u - 1]) case None => [] case Some(op) => [op]
  }

  /** The states of the write pool between those calls. */
  function PoolStates(run: seq<State>, steps: seq<Step>, u: nat): seq<Pool>
    requires u <= |steps| && u < |run|
  {
    if u == 0 then [run[0].writePool]
    else PoolStates(run, steps, u - 1) + match PoolOp(steps[u - 1]) case None => [] case Some(_) => [run[u].writePool]
  }

  lemma PoolRunGrows(ps: seq<Pool>, ops: seq<Op>, op: Op, p: Pool)
    requires IsPoolRun(ps, ops) && CanDo(ps[|ops|], op) && p == Do(ps[|ops|], op)
    ensures IsPoolRun(ps + [p], ops + [op])
  {
  }

  /** In every run of the whole backend the write pool goes through a run of its own. */
  lemma {:induction false} BackPressureRun(run: seq<State>, steps: seq<Step>, u: nat)
    requires Execution(run, steps) && u < |run|
    ensures var ps, ops := PoolStates(run, steps, u), PoolOps(steps, u);
      IsPoolRun(ps, ops) && ps[|ops|] == run[u].writePool
  {
    if u > 0 {
      BackPressureRun(run, steps, u - 1);
      assert StepAt(run, steps, u - 1);
      PoolStep(run[u - 1], steps[u - 1]);
      if PoolOp(steps[u - 1]).Some? {
        PoolRunGrows(PoolStates(run, steps, u - 1), PoolOps(steps, u - 1), PoolOp(steps[u - 1]).value, run[u].writePool);
      }
    }
  }

  /**
    Once at most 512 write buffers are out, and so once all writes have drained, a peer is left
    waiting exactly if malloc has failed for a write and no write buffer has been freed since;
    otherwise everyone told to wait has been posted exactly once.
   */
  lemma NoWriterLeftWaiting(run: seq<State>, steps: seq<Step>, u: nat)
    requires Execution(run, steps) && u < |run| && |run[u].heap| <= LOW_WATERMARK
    ensures var p, ps, ops := run[u].writePool, PoolStates(run, steps, u), PoolOps(steps, u);
      && IsPoolRun(ps, ops)
      && (p.exceeded <==> Starved(ops, |ops|))
      && (p.waiting == [] <==> !Parked(ops, |ops|))
      && (p.waiting == [] ==> Concat(p.posted) == Registered(ps, ops, |ops|))
  {
    BackPressureRun(run, steps, u);
    BuffersConserved(run, steps, u);
    WaitersExactly(PoolStates(run, steps, u), PoolOps(steps, u), |PoolOps(steps, u)|);
  }

  /**
    Exactly when `async_write` holds peers back, in every run: after a write call found more than 896
    write buffers out or its malloc failed, until a free leaves at most 512 out.
   */
  lemma BackPressureExactly(run: seq<State>, steps: seq<Step>, u: nat)
    requires Execution(run, steps) && u < |run|
    ensures var ps, ops := PoolStates(run, steps, u), PoolOps(steps, u);
      IsPoolRun(ps, ops) && (run[u].writePool.exceeded <==> Raised(ps, ops, |ops|))
  {
    BackPressureRun(run, steps, u);
    FlagExactly(PoolStates(run, steps, u), PoolOps(steps, u), |PoolOps(steps, u)|);
  }

  /** Over every run in which malloc succeeds for writes, each batch of callbacks is paid for by 386 freed write buffers. */
  lemma WakeUpsAreRare(run: seq<State>, steps: seq<Step>, u: nat)
    requires Execution(run, steps) && u < |run|
    requires forall i :: 0 <= i < |PoolOps(steps, u)| ==> MallocSucceeds(PoolOps(steps, u)[i])
    ensures 386 * |run[u].writePool.posted| <= Frees(PoolOps(steps, u), |PoolOps(steps, u)|)
  {
    BackPressureRun(run, steps, u);
    HysteresisBound(PoolStates(run, steps, u), PoolOps(steps, u), |PoolOps(steps, u)|);
  }
}
