/** `buffer_pool`: a bounded allocator with watermarks and back-pressure observers. */
module BufferPools {
  import opened Basics

  /** 16 MiB of 16 KiB buffers; the comment in the header says 256 MB, the constant does not. */
  const BUFFER_COUNT: nat := 16 * 1024 * 1024 / BLOCK
  const LOW_WATERMARK: nat := BUFFER_COUNT / 2
  const HIGH_WATERMARK: nat := BUFFER_COUNT / 8 * 7

  type Observer = nat

  /**
    The state of a pool. `waiting` is `m_observers`; `posted` is what has been handed to
    the io_context, one batch of observers per `watermark_callback`.
   */
  datatype Pool = Pool(size: nat, exceeded: bool, waiting: seq<Observer>, posted: seq<seq<Observer>>)

  const EMPTY_POOL := Pool(0, false, [], [])

  /** `allocate_buffer_impl`; `mallocOk` is the answer of malloc. */
  function AllocateImpl(p: Pool, mallocOk: bool): (Pool, bool) {
    if p.size >= BUFFER_COUNT then (p.(exceeded := true), false)
    else if !mallocOk then (p.(exceeded := true), false)
    else (p.(size := p.size + 1, exceeded := p.exceeded || p.size > HIGH_WATERMARK), true)
  }

  /** `allocate_buffer(exceeded, o)`: the pool, whether a buffer came out, and `exceeded`. */
  function AllocateWatched(p: Pool, mallocOk: bool, o: Option<Observer>): (Pool, bool, bool) {
    var (q, ok) := AllocateImpl(p, mallocOk);
    if q.exceeded then (if o.Some? then q.(waiting := q.waiting + [o.value]) else q, ok, true)
    else (q, ok, false)
  }

  /** `check_buffer_level`. */
  function CheckLevel(p: Pool): Pool {
    if !p.exceeded || p.size > LOW_WATERMARK then p
    else p.(exceeded := false, waiting := [], posted := p.posted + [p.waiting])
  }

  /** `free_disk_buffer`. */
  function FreeBuffer(p: Pool): Pool
    requires p.size > 0
  {
    CheckLevel(p.(size := p.size - 1))
  }

  // ---------- runs ----------

  datatype Op = Allocate(mallocOk: bool) | Watch(mallocOk: bool, o: Option<Observer>) | Free

  predicate CanDo(p: Pool, op: Op) {
    op.Free? ==> p.size > 0
  }

  function Do(p: Pool, op: Op): Pool
    requires CanDo(p, op)
  {
    match op
    case Allocate(ok) => AllocateImpl(p, ok).0
    case Watch(ok, o) => AllocateWatched(p, ok, o).0
    case Free => FreeBuffer(p)
  }

  /** `ps` are the states of a pool that starts empty and performs `ops`. */
  predicate IsPoolRun(ps: seq<Pool>, ops: seq<Op>) {
    && |ps| == |ops| + 1 && ps[0] == EMPTY_POOL
    && forall i :: 0 <= i < |ops| ==> CanDo(ps[i], ops[i]) && ps[i + 1] == Do(ps[i], ops[i])
  }

  function Frees(ops: seq<Op>, n: nat): nat
    requires n <= |ops|
  {
    if n == 0 then 0 else Frees(ops, n - 1) + if ops[n - 1].Free? then 1 else 0
  }

  /** The observer that a call made to wait: one was passed in and the call returned `exceeded`. */
  function Told(p: Pool, op: Op): seq<Observer> {
    if op.Watch? && op.o.Some? && AllocateWatched(p, op.mallocOk, op.o).2 then [op.o.value] else []
  }

  /** All observers made to wait by the first `n` calls, in call order. */
  function Registered(ps: seq<Pool>, ops: seq<Op>, n: nat): seq<Observer>
    requires n <= |ops| && n <= |ps|
  {
    if n == 0 then [] else Registered(ps, ops, n - 1) + Told(ps[n - 1], ops[n - 1])
  }

  function Concat(batches: seq<seq<Observer>>): seq<Observer> {
    if batches == [] then [] else Concat(batches[..|batches| - 1]) + batches[|batches| - 1]
  }

  predicate MallocSucceeds(op: Op) {
    op.Free? || op.mallocOk
  }

  /** Back-pressure is on only while enough buffers are out for a later free to end it. */
  predicate Releasable(p: Pool) {
    && (p.exceeded ==> p.size > LOW_WATERMARK)
    && (p.waiting != [] ==> p.exceeded)
  }

  /** A step appends to the observers seen so far exactly the one it told to wait. */
  lemma StepConserves(p: Pool, op: Op)
    requires CanDo(p, op) && p.size <= BUFFER_COUNT && (p.waiting != [] ==> p.exceeded)
    ensures var q := Do(p, op);
      && q.size <= BUFFER_COUNT && (q.waiting != [] ==> q.exceeded)
      && Concat(q.posted) + q.waiting == Concat(p.posted) + p.waiting + Told(p, op)
  {
    var q := Do(p, op);
    if q.posted != p.posted {
      assert q.posted == p.posted + [p.waiting];
      assert q.posted[..|q.posted| - 1] == p.posted;
    }
  }

  /**
    Every observer told to wait is posted exactly once, in order, or is still waiting:
    none is lost, none is doubled. This needs nothing of malloc.
   */
  lemma {:induction false} ObserversConserved(ps: seq<Pool>, ops: seq<Op>, n: nat)
    requires IsPoolRun(ps, ops) && n <= |ops|
    ensures Concat(ps[n].posted) + ps[n].waiting == Registered(ps, ops, n)
    ensures ps[n].size <= BUFFER_COUNT && (ps[n].waiting != [] ==> ps[n].exceeded)
  {
    if n > 0 {
      ObserversConserved(ps, ops, n - 1);
      StepConserves(ps[n - 1], ops[n - 1]);
      assert ps[n - 1 + 1] == Do(ps[n - 1], ops[n - 1]);
    }
  }

  /** One step keeps the release guarantee exactly when malloc did not fail at or below the low mark. */
  lemma StepReleasable(p: Pool, op: Op)
    requires CanDo(p, op) && Releasable(p)
    ensures Releasable(Do(p, op)) <==> MallocSucceeds(op) || p.size > LOW_WATERMARK
  {
  }

  /** A failing malloc on an idle pool parks an observer while there is no buffer out whose free could wake it. */
  lemma MallocFailureParksObserver(o: Observer)
    ensures var p := AllocateWatched(EMPTY_POOL, false, Some(o)).0;
      p.waiting == [o] && p.size == 0 && !Releasable(p) && !CanDo(p, Free)
  {
  }

  predicate MallocFails(op: Op) {
    !MallocSucceeds(op)
  }

  predicate Watches(op: Op) {
    op.Watch? && op.o.Some?
  }

  /** Among the first `n` calls, malloc failed in call `i` and no buffer was freed after it. */
  ghost predicate StarvedSince(ops: seq<Op>, n: nat, i: nat) {
    i < n <= |ops| && MallocFails(ops[i]) && forall k :: i < k < n ==> !ops[k].Free?
  }

  ghost predicate Starved(ops: seq<Op>, n: nat) {
    exists i: nat :: StarvedSince(ops, n, i)
  }

  /** An observer was passed in at or after that failure. */
  ghost predicate Parked(ops: seq<Op>, n: nat) {
    exists i: nat, k: nat :: StarvedSince(ops, n, i) && i <= k < n && Watches(ops[k])
  }

  lemma StarvedNext(ops: seq<Op>, n: nat)
    requires n < |ops|
    ensures Starved(ops, n + 1) <==> !ops[n].Free? && (MallocFails(ops[n]) || Starved(ops, n))
  {
    if !ops[n].Free? && MallocFails(ops[n]) {
      assert StarvedSince(ops, n + 1, n);
    } else if !ops[n].Free? && Starved(ops, n) {
      var i: nat :| StarvedSince(ops, n, i);
      assert StarvedSince(ops, n + 1, i);
    }
    if Starved(ops, n + 1) {
      var i: nat :| StarvedSince(ops, n + 1, i);
      assert i < n ==> StarvedSince(ops, n, i);
    }
  }

  lemma ParkedNext(ops: seq<Op>, n: nat)
    requires n < |ops|
    ensures Parked(ops, n + 1) <==> !ops[n].Free? && (Parked(ops, n) || (Starved(ops, n + 1) && Watches(ops[n])))
  {
    if !ops[n].Free? && Parked(ops, n) {
      var i: nat, k: nat :| StarvedSince(ops, n, i) && i <= k < n && Watches(ops[k]);
      assert StarvedSince(ops, n + 1, i);
    } else if !ops[n].Free? && Starved(ops, n + 1) && Watches(ops[n]) {
      var i: nat :| StarvedSince(ops, n + 1, i);
      assert i <= n < n + 1;
    }
    if Parked(ops, n + 1) {
      var i: nat, k: nat :| StarvedSince(ops, n + 1, i) && i <= k < n + 1 && Watches(ops[k]);
      assert k < n ==> StarvedSince(ops, n, i);
    }
  }

  /** At or below the low mark the flag and the waiting observers are exactly those of unresolved malloc failures. */
  predicate LowExact(p: Pool, starved: bool, parked: bool) {
    p.size <= LOW_WATERMARK ==> (p.exceeded <==> starved) && (p.waiting != [] <==> parked)
  }

  lemma StepLowExact(p: Pool, op: Op, starved: bool, parked: bool)
    requires CanDo(p, op) && LowExact(p, starved, parked) && p.size <= BUFFER_COUNT && (p.waiting != [] ==> p.exceeded)
    ensures var starved' := !op.Free? && (MallocFails(op) || starved);
      LowExact(Do(p, op), starved', !op.Free? && (parked || (starved' && Watches(op))))
  {
  }

  /**
    Exactly when a pool at or below the low mark still holds anyone back, over every run: when
    malloc has failed and no buffer has been freed since; and exactly then observers passed
    in since that failure are waiting. Everyone else told to wait has been posted exactly once.
   */
  lemma {:induction false} WaitersExactly(ps: seq<Pool>, ops: seq<Op>, n: nat)
    requires IsPoolRun(ps, ops) && n <= |ops|
    ensures ps[n].size <= LOW_WATERMARK ==> (ps[n].exceeded <==> Starved(ops, n))
    ensures ps[n].size <= LOW_WATERMARK ==> (ps[n].waiting == [] <==> !Parked(ops, n))
    ensures ps[n].waiting == [] ==> Concat(ps[n].posted) == Registered(ps, ops, n)
  {
    ObserversConserved(ps, ops, n);
    assert Concat(ps[n].posted) + [] == Concat(ps[n].posted);
    if n > 0 {
      WaitersExactly(ps, ops, n - 1);
      ObserversConserved(ps, ops, n - 1);
      StarvedNext(ops, n - 1);
      ParkedNext(ops, n - 1);
      StepLowExact(ps[n - 1], ops[n - 1], Starved(ops, n - 1), Parked(ops, n - 1));
      assert ps[n - 1 + 1] == Do(ps[n - 1], ops[n - 1]);
    }
  }

  /** Back-pressure without lost wake-ups: if every failure of malloc has been followed by a free, no one is held back. */
  lemma WaitersAreReleased(ps: seq<Pool>, ops: seq<Op>, n: nat)
    requires IsPoolRun(ps, ops) && n <= |ops| && ps[n].size <= LOW_WATERMARK
    requires forall i :: 0 <= i < n && MallocFails(ops[i]) ==> exists k :: i < k < n && ops[k].Free?
    ensures !ps[n].exceeded && ps[n].waiting == [] && Concat(ps[n].posted) == Registered(ps, ops, n)
  {
    WaitersExactly(ps, ops, n);
  }

  /** The release guarantee itself, in runs whose malloc failures are all above the low mark. */
  lemma {:induction false} RunReleasable(ps: seq<Pool>, ops: seq<Op>, n: nat)
    requires IsPoolRun(ps, ops) && n <= |ops|
    requires forall i :: 0 <= i < n ==> MallocSucceeds(ops[i]) || ps[i].size > LOW_WATERMARK
    ensures Releasable(ps[n])
  {
    if n > 0 {
      RunReleasable(ps, ops, n - 1);
      StepReleasable(ps[n - 1], ops[n - 1]);
      assert ps[n - 1 + 1] == Do(ps[n - 1], ops[n - 1]);
    }
  }

  // ---------- exactly when back-pressure is on ----------

  /** Exactly when a buffer comes out of an allocation. */
  lemma AllocationAnswer(p: Pool, mallocOk: bool)
    ensures var (q, ok) := AllocateImpl(p, mallocOk);
      (ok <==> p.size < 1024 && mallocOk) && q.size == p.size + if ok then 1 else 0
  {
  }

  /** An allocation that finds more than 896 buffers out, or whose malloc fails. */
  predicate Raises(p: Pool, op: Op) {
    !op.Free? && (p.size > 896 || !op.mallocOk)
  }

  /** Call `i` raised the flag and no free after it, among the first `n` calls, left at most 512 buffers out. */
  ghost predicate RaisedSince(ps: seq<Pool>, ops: seq<Op>, n: nat, i: nat) {
    && i < n <= |ops| < |ps| && Raises(ps[i], ops[i])
    && forall k :: i < k < n ==> !(ops[k].Free? && ps[k + 1].size <= 512)
  }

  ghost predicate Raised(ps: seq<Pool>, ops: seq<Op>, n: nat) {
    exists i: nat :: RaisedSince(ps, ops, n, i)
  }

  lemma RaisedNext(ps: seq<Pool>, ops: seq<Op>, n: nat)
    requires n < |ops| < |ps|
    ensures Raised(ps, ops, n + 1)
      <==> Raises(ps[n], ops[n]) || (Raised(ps, ops, n) && !(ops[n].Free? && ps[n + 1].size <= 512))
  {
    if Raises(ps[n], ops[n]) {
      assert RaisedSince(ps, ops, n + 1, n);
    } else if Raised(ps, ops, n) && !(ops[n].Free? && ps[n + 1].size <= 512) {
      var i: nat :| RaisedSince(ps, ops, n, i);
      assert RaisedSince(ps, ops, n + 1, i);
    }
    if Raised(ps, ops, n + 1) {
      var i: nat :| RaisedSince(ps, ops, n + 1, i);
      assert i < n ==> RaisedSince(ps, ops, n, i);
    }
  }

  lemma StepRaises(p: Pool, op: Op)
    requires CanDo(p, op)
    ensures Do(p, op).exceeded <==> Raises(p, op) || (p.exceeded && !(op.Free? && Do(p, op).size <= 512))
  {
  }

  /**
    Exactly when back-pressure is on, over every run: when some allocation found more than 896
    buffers out or had a failing malloc, and no free since has left at most 512 out.
   */
  lemma {:induction false} FlagExactly(ps: seq<Pool>, ops: seq<Op>, n: nat)
    requires IsPoolRun(ps, ops) && n <= |ops|
    ensures ps[n].exceeded <==> Raised(ps, ops, n)
  {
    if n > 0 {
      FlagExactly(ps, ops, n - 1);
      RaisedNext(ps, ops, n - 1);
      StepRaises(ps[n - 1], ops[n - 1]);
      assert ps[n - 1 + 1] == Do(ps[n - 1], ops[n - 1]);
    }
  }

  /** A watched call says `exceeded`, and makes its observer wait, exactly when back-pressure is on after the call. */
  lemma WatchedCallAnswers(ps: seq<Pool>, ops: seq<Op>, n: nat)
    requires IsPoolRun(ps, ops) && n < |ops| && ops[n].Watch?
    ensures AllocateWatched(ps[n], ops[n].mallocOk, ops[n].o).2 <==> Raised(ps, ops, n + 1)
    ensures AllocateWatched(ps[n], ops[n].mallocOk, ops[n].o).1 <==> ps[n].size < 1024 && ops[n].mallocOk
    ensures ps[n + 1].waiting
      == ps[n].waiting + if ops[n].o.Some? && Raised(ps, ops, n + 1) then [ops[n].o.value] else []
    ensures Told(ps[n], ops[n]) == if ops[n].o.Some? && Raised(ps, ops, n + 1) then [ops[n].o.value] else []
  {
    assert ps[n + 1] == Do(ps[n], ops[n]);
    FlagExactly(ps, ops, n + 1);
    AllocationAnswer(ps[n], ops[n].mallocOk);
  }

  /** Frees already made towards the next batch, plus those that paid for the earlier ones. */
  predicate Paid(p: Pool, frees: nat) {
    && 386 * |p.posted| <= frees
    && (p.exceeded ==> 386 * |p.posted| + HIGH_WATERMARK + 2 - p.size <= frees)
  }

  lemma StepPaid(p: Pool, op: Op, frees: nat)
    requires CanDo(p, op) && MallocSucceeds(op) && Releasable(p) && p.size <= BUFFER_COUNT && Paid(p, frees)
    ensures Paid(Do(p, op), frees + if op.Free? then 1 else 0)
  {
    var q := Do(p, op);
    if q.posted != p.posted {
      assert q.posted == p.posted + [p.waiting] && q.size == LOW_WATERMARK;
    }
  }

  /** Each batch of callbacks is paid for by at least 386 frees. */
  lemma {:induction false} HysteresisBound(ps: seq<Pool>, ops: seq<Op>, n: nat)
    requires IsPoolRun(ps, ops) && n <= |ops|
    requires forall i :: 0 <= i < n ==> MallocSucceeds(ops[i])
    ensures Paid(ps[n], Frees(ops, n))
    ensures 386 * |ps[n].posted| <= Frees(ops, n)
  {
    if n > 0 {
      HysteresisBound(ps, ops, n - 1);
      RunReleasable(ps, ops, n - 1);
      ObserversConserved(ps, ops, n - 1);
      StepPaid(ps[n - 1], ops[n - 1], Frees(ops, n - 1));
      assert ps[n - 1 + 1] == Do(ps[n - 1], ops[n - 1]);
    }
  }

  // ---------- the class ----------

  class BufferPool {
    var size: nat
    var exceededMaxSize: bool
    var observers: seq<Observer>
    var posted: seq<seq<Observer>>

    ghost function State(): Pool
      reads this
    {
      Pool(size, exceededMaxSize, observers, posted)
    }

    constructor ()
      ensures State() == EMPTY_POOL
    {
      size, exceededMaxSize, observers, posted := 0, false, [], [];
    }

    method AllocateBufferImpl(mallocOk: bool) returns (buf: array?<byte>)
      modifies this
      ensures (State(), buf != null) == AllocateImpl(old(State()), mallocOk)
      ensures buf != null ==> fresh(buf) && buf.Length == BLOCK
    {
      if size >= BUFFER_COUNT {
        exceededMaxSize := true;
        return null;
      }
      if size > HIGH_WATERMARK {
        exceededMaxSize := true;
      }
      if !mallocOk {
        exceededMaxSize := true;
        return null;
      }
      buf := new byte[BLOCK];
      size := size + 1;
    }

    method AllocateBuffer(mallocOk: bool) returns (buf: array?<byte>)
      modifies this
      ensures (State(), buf != null) == AllocateImpl(old(State()), mallocOk)
      ensures buf != null ==> fresh(buf) && buf.Length == BLOCK
    {
      buf := AllocateBufferImpl(mallocOk);
    }

    method AllocateBufferWatched(mallocOk: bool, o: Option<Observer>) returns (buf: array?<byte>, exceeded: bool)
      modifies this
      ensures (State(), buf != null, exceeded) == AllocateWatched(old(State()), mallocOk, o)
      ensures buf != null ==> fresh(buf) && buf.Length == BLOCK
    {
      exceeded := false;
      buf := AllocateBufferImpl(mallocOk);
      if exceededMaxSize {
        exceeded := true;
        if o.Some? {
          observers := observers + [o.value];
        }
      }
    }

    method FreeDiskBuffer()
      requires size > 0
      modifies this
      ensures State() == FreeBuffer(old(State()))
    {
      size := size - 1;
      CheckBufferLevel();
    }

    method CheckBufferLevel()
      modifies this
      ensures State() == CheckLevel(old(State()))
    {
      if !exceededMaxSize || size > LOW_WATERMARK {
        return;
      }
      exceededMaxSize := false;
      var cbs := observers;
      observers := [];
      posted := posted + [cbs];
    }
  }
}
