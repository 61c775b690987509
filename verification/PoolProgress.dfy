/** When a waiting job can still be served. Here the events are those that processes can cause: what is known of each
    process is recorded beside the pool's state. */
module PoolProgress {
  import opened Options
  import opened PoolModel
  import opened PoolLedger
  import opened PoolInvariant
  import opened PoolSteps
  import opened PoolTheorems

  /** The pool, the processes whose error or exit event has come, and those that have reported ready. */
  datatype Life = Life(s: State, failed: set<ProcId>, reported: set<ProcId>)

  /** The job handlers of process p are attached, for slot k. */
  predicate Bound(s: State, k: nat, p: ProcId) {
    p in s.children.attached && s.children.attached[p] == k
  }

  /** Messages, errors and exits reach the pool through attached handlers only. It is assumed that no message arrives
      after the error or exit event of its process, that a process reports ready once, and that it closes once, after
      its error or exit event. A timer fires while it runs. */
  predicate Genuine(h: Life, e: Event) {
    && Possible(h.s, e)
    && match e
       case Ready(k, p) => Bound(h.s, k, p) && p !in h.failed && p !in h.reported
       case Reply(k, p, answer) => Bound(h.s, k, p) && p !in h.failed
       case Failure(k, p) => Bound(h.s, k, p)
       case TimerFires(t) => t in h.s.timers
       case Close(p) => p in h.s.children.outstanding && (p in h.s.children.attached ==> p in h.failed)
       case ShutdownExpires => h.s.drain.shutdownTimer
       case _ => true
  }

  function After(h: Life, i: Input): Life
    requires Genuine(h, i.event)
  {
    Life(Step(h.s, i),
         if i.event.Failure? then h.failed + {i.event.proc} else h.failed,
         if i.event.Ready? then h.reported + {i.event.proc} else h.reported)
  }

  /** A run of genuine events; any other is passed over. */
  function Lived(h: Life, inputs: seq<Input>): Life
    decreases |inputs|
  {
    if inputs == [] then h else
    var last := |inputs| - 1;
    var before := Lived(h, inputs[..last]);
    if Genuine(before, inputs[last].event) then After(before, inputs[last]) else before
  }

  function Born(size: nat, builtin: bool, unified: bool): Life {
    Life(Init(size, builtin, unified), {}, {})
  }

  /** Lives that some run of a new pool leads to. */
  ghost predicate Lives(h: Life) {
    exists size: nat, builtin: bool, unified: bool, inputs: seq<Input> ::
      (unified ==> builtin) && h == Lived(Born(size, builtin, unified), inputs)
  }

  // ---------------------------------------------------------------- what is known of the processes

  /** The process of slot k can be heard unless it has failed; it has failed or reported exactly as its slot shows. */
  ghost predicate SlotAlive(h: Life, k: nat)
    requires k < |h.s.slots|
  {
    var p := h.s.slots[k].proc;
    && (Bound(h.s, k, p) || p in h.s.children.closed)
    && (p in h.s.children.closed ==> p in h.failed)
    && (h.s.slots[k].ready <==> p in h.reported && p !in h.failed)
  }

  ghost predicate Alive(h: Life) {
    && (forall p: ProcId :: p in h.failed || p in h.reported ==> p < h.s.children.nextProc)
    && (!h.s.drain.shuttingDown ==> forall k :: 0 <= k < |h.s.slots| ==> SlotAlive(h, k))
  }

  /** Slots keep their processes and readiness. */
  ghost predicate SameWorkers(s: State, r: State) {
    && |r.slots| == |s.slots|
    && r.children.attached == s.children.attached && r.children.closed == s.children.closed
    && r.children.nextProc == s.children.nextProc
    && forall k :: 0 <= k < |s.slots| ==> r.slots[k].proc == s.slots[k].proc && r.slots[k].ready == s.slots[k].ready
  }

  lemma SameWorkersAlive(h: Life, r: State)
    requires Alive(h) && SameWorkers(h.s, r) && (h.s.drain.shuttingDown ==> r.drain.shuttingDown)
    ensures Alive(h.(s := r))
  {
    if !r.drain.shuttingDown {
      forall k | 0 <= k < |r.slots| ensures SlotAlive(h.(s := r), k) {
        assert SlotAlive(h, k);
      }
    }
  }

  lemma DispatchWorkers(s: State)
    ensures SameWorkers(s, Dispatch(s)) && Dispatch(s).drain == s.drain
  {
    DispatchLoopFrame(s);
  }

  /** Slot k has a new process; the handlers of the old one are detached. */
  ghost predicate HandedOver(s: State, r: State, k: nat) {
    && k < |s.slots| == |r.slots|
    && r.slots[k] == Slot(s.children.nextProc, false, false, None)
    && (forall j :: 0 <= j < |s.slots| && j != k ==>
        r.slots[j].proc == s.slots[j].proc && r.slots[j].ready == s.slots[j].ready)
    && r.children.attached == (s.children.attached - {s.slots[k].proc})[s.children.nextProc := k]
    && r.children.closed == s.children.closed && r.children.nextProc == s.children.nextProc + 1
  }

  lemma HandedOverAlive(h: Life, r: State, k: nat, failed: set<ProcId>)
    requires Alive(h) && Valid(h.s) && !h.s.drain.shuttingDown && HandedOver(h.s, r, k)
    requires failed == h.failed || failed == h.failed + {h.s.slots[k].proc}
    ensures Alive(Life(r, failed, h.reported))
  {
    var g := Life(r, failed, h.reported);
    forall j | 0 <= j < |r.slots| ensures SlotAlive(g, j) {
      if j == k {
        assert h.s.children.nextProc !in h.s.children.closed;
      } else {
        OtherSlotAlive(h, r, k, j, failed);
      }
    }
  }

  lemma OtherSlotAlive(h: Life, r: State, k: nat, j: nat, failed: set<ProcId>)
    requires Alive(h) && Valid(h.s) && !h.s.drain.shuttingDown && HandedOver(h.s, r, k)
    requires failed == h.failed || failed == h.failed + {h.s.slots[k].proc}
    requires j < |r.slots| && j != k
    ensures SlotAlive(Life(r, failed, h.reported), j)
  {
    assert SlotAlive(h, j);
    assert h.s.slots[j].proc != h.s.slots[k].proc && h.s.slots[j].proc < h.s.children.nextProc;
  }

  // ---------------------------------------------------------------- each event keeps it

  /** q is s but for the job and readiness of slot k. */
  lemma ReplacedIsHandedOver(s: State, q: State, r: State, k: nat)
    requires OnlySlot(s, q, k) && q.children == s.children
    requires OnlySignals(Replace(Detach(q, s.slots[k].proc), k), r)
    ensures HandedOver(s, r, k)
  {
  }

  lemma RespawnHandsOver(s: State, q: State, k: nat, kills: Kills)
    requires OnlySlot(s, q, k) && q.children == s.children && !q.drain.shuttingDown && HandlersInRange(q)
    ensures HandedOver(s, Respawn(q, k, kills), k)
  {
    RespawnReplaces(q, k, kills);
    ReplacedIsHandedOver(s, q, Respawn(q, k, kills), k);
  }

  lemma ReadyAlive(h: Life, i: Input)
    requires Alive(h) && Valid(h.s) && Genuine(h, i.event) && i.event.Ready?
    ensures Alive(After(h, i))
  {
    var k, p := i.event.slot, i.event.proc;
    assert h.s.slots[k].proc == p;
    if !h.s.drain.shuttingDown {
      var marked := Life(h.s.(slots := h.s.slots[k := h.s.slots[k].(ready := true)]), h.failed, h.reported + {p});
      forall j | 0 <= j < |marked.s.slots| ensures SlotAlive(marked, j) {
        assert SlotAlive(h, j);
        assert j != k ==> h.s.slots[j].proc != p;
      }
      DispatchWorkers(marked.s);
      SameWorkersAlive(marked, Dispatch(marked.s));
    }
  }

  lemma ReplyAlive(h: Life, i: Input)
    requires Alive(h) && Valid(h.s) && Genuine(h, i.event) && i.event.Reply?
    ensures Alive(After(h, i))
  {
    var k, p, answer := i.event.slot, i.event.proc, i.event.answer;
    var s := h.s;
    if s.drain.shuttingDown || s.slots[k].proc != p || !Runs(s.slots[k], answer.id) {
      ReplyDropped(s, k, p, answer, i.kills);
    } else {
      var (outcome, recycle) := Judge(s, p, s.slots[k].active.value.job, answer);
      var q := Finish(s, k, outcome, s.slots[k].ready);
      ReplyUnfolds(s, k, p, answer, i.kills);
      FinishOnlySlot(s, k, outcome, s.slots[k].ready);
      if recycle {
        RespawnHandsOver(s, q, k, i.kills);
        HandedOverAlive(h, Respawn(q, k, i.kills), k, h.failed);
      } else {
        SameWorkersAlive(h, q);
        DispatchWorkers(q);
        SameWorkersAlive(h.(s := q), Dispatch(q));
      }
    }
  }

  lemma FailureAlive(h: Life, i: Input)
    requires Alive(h) && Valid(h.s) && Genuine(h, i.event) && i.event.Failure?
    ensures Alive(After(h, i))
  {
    var k, p := i.event.slot, i.event.proc;
    assert h.s.slots[k].proc == p && p < h.s.children.nextProc;
    if !h.s.drain.shuttingDown {
      FailureUnfolds(h.s, k, p, i.kills);
      if h.s.slots[k].active.Some? || h.s.slots[k].ready {
        ReplacedAlive(h, k, i.kills);
      } else {
        DownAlive(h, k);
      }
    }
  }

  lemma ReplacedAlive(h: Life, k: nat, kills: Kills)
    requires Alive(h) && Valid(h.s) && !h.s.drain.shuttingDown && HandlersInRange(h.s) && k < |h.s.slots|
    ensures Alive(Life(Respawn(Interrupted(h.s, k), k, kills), h.failed + {h.s.slots[k].proc}, h.reported))
  {
    var q := Interrupted(h.s, k);
    InterruptedOnlySlot(h.s, k);
    RespawnHandsOver(h.s, q, k, kills);
    HandedOverAlive(h, Respawn(q, k, kills), k, h.failed + {h.s.slots[k].proc});
  }

  lemma DownAlive(h: Life, k: nat)
    requires Alive(h) && Valid(h.s) && !h.s.drain.shuttingDown
    requires k < |h.s.slots| && h.s.slots[k].active.None? && !h.s.slots[k].ready
    ensures Alive(Life(Interrupted(h.s, k), h.failed + {h.s.slots[k].proc}, h.reported))
  {
    var g := Life(Interrupted(h.s, k), h.failed + {h.s.slots[k].proc}, h.reported);
    forall j | 0 <= j < |g.s.slots| ensures SlotAlive(g, j) {
      assert SlotAlive(h, j);
      assert j != k ==> h.s.slots[j].proc != h.s.slots[k].proc;
    }
  }

  lemma TimerAlive(h: Life, i: Input)
    requires Alive(h) && Valid(h.s) && Genuine(h, i.event) && i.event.TimerFires?
    ensures Alive(After(h, i))
  {
    var t := i.event.timer;
    var s := h.s;
    var k := s.timers[t].slot;
    TimerKeeps(s, t, i.kills);
    TimerFindsItsJob(s, t);
    FinishOnlySlot(s, k, TimedOut, false);
    if !s.drain.shuttingDown {
      ReplacedIsHandedOver(s, Finish(s, k, TimedOut, false), OnTimer(s, t, i.kills), k);
      HandedOverAlive(h, OnTimer(s, t, i.kills), k, h.failed);
    }
  }

  lemma CloseAlive(h: Life, i: Input)
    requires Alive(h) && Valid(h.s) && Genuine(h, i.event) && i.event.Close?
    ensures Alive(After(h, i))
  {
    var p := i.event.proc;
    var r := OnClose(h.s, p);
    FinishShutdownForks(Closed(h.s, p));
    if !h.s.drain.shuttingDown {
      forall k | 0 <= k < |r.slots| ensures SlotAlive(After(h, i), k) {
        assert SlotAlive(h, k);
      }
    }
  }

  lemma OtherAlive(h: Life, i: Input)
    requires Alive(h) && Valid(h.s) && Genuine(h, i.event)
    requires i.event.Submit? || i.event.RequestShutdown? || i.event.ShutdownExpires?
    ensures Alive(After(h, i))
  {
    match i.event {
      case Submit(execute, prepared) =>
        if Accepts(h.s, execute, prepared) {
          var q := Enqueued(h.s, prepared);
          DispatchWorkers(q);
          SameWorkersAlive(h, Dispatch(q));
        }
      case RequestShutdown(timeoutOk) => ShutdownKeeps(h.s, timeoutOk, i.kills);
      case ShutdownExpires =>
    }
  }

  lemma AfterAlive(h: Life, i: Input)
    requires Alive(h) && Valid(h.s) && Genuine(h, i.event)
    ensures Alive(After(h, i)) && Valid(After(h, i).s)
  {
    StepKeeps(h.s, i);
    match i.event {
      case Ready(k, p) => ReadyAlive(h, i);
      case Reply(k, p, answer) => ReplyAlive(h, i);
      case Failure(k, p) => FailureAlive(h, i);
      case TimerFires(t) => TimerAlive(h, i);
      case Close(p) => CloseAlive(h, i);
      case _ => OtherAlive(h, i);
    }
  }

  ghost predicate AllBound(s: State) {
    forall k :: 0 <= k < |s.slots| ==> Bound(s, k, s.slots[k].proc)
  }

  lemma GrownBound(s: State)
    requires AllBound(s) && forall k :: 0 <= k < |s.slots| ==> s.slots[k].proc < s.children.nextProc
    ensures AllBound(Grown(s))
  {
  }

  lemma InitIsNew(size: nat, builtin: bool, unified: bool)
    requires unified ==> builtin
    ensures New(Init(size, builtin, unified)) && |Init(size, builtin, unified).slots| == size
  {
    InitValid(size, builtin, unified);
  }

  lemma {:induction false} BornBound(size: nat, builtin: bool, unified: bool)
    requires unified ==> builtin
    ensures AllBound(Init(size, builtin, unified))
  {
    if size > 0 {
      BornBound(size - 1, builtin, unified);
      InitIsNew(size - 1, builtin, unified);
      GrownBound(Init(size - 1, builtin, unified));
    }
  }

  lemma BornAlive(size: nat, builtin: bool, unified: bool)
    requires unified ==> builtin
    ensures Alive(Born(size, builtin, unified)) && Valid(Born(size, builtin, unified).s)
  {
    InitValid(size, builtin, unified);
    InitIsNew(size, builtin, unified);
    BornBound(size, builtin, unified);
    NewIsAlive(Born(size, builtin, unified));
  }

  lemma NewIsAlive(h: Life)
    requires New(h.s) && AllBound(h.s) && h.failed == h.reported == {}
    ensures Alive(h)
  {
  }

  lemma {:induction false} LivedAlive(h: Life, inputs: seq<Input>)
    requires Alive(h) && Valid(h.s)
    ensures Alive(Lived(h, inputs)) && Valid(Lived(h, inputs).s)
    decreases |inputs|
  {
    if inputs != [] {
      var last := |inputs| - 1;
      LivedAlive(h, inputs[..last]);
      if Genuine(Lived(h, inputs[..last]), inputs[last].event) {
        AfterAlive(Lived(h, inputs[..last]), inputs[last]);
      }
    }
  }

  lemma LivesAlive(h: Life)
    requires Lives(h)
    ensures Alive(h) && Valid(h.s)
  {
    var size: nat, builtin: bool, unified: bool, inputs: seq<Input> :|
      (unified ==> builtin) && h == Lived(Born(size, builtin, unified), inputs);
    BornAlive(size, builtin, unified);
    LivedAlive(Born(size, builtin, unified), inputs);
  }

  // ---------------------------------------------------------------- hope

  /** Some slot runs a job, or some slot that is not ready has a process that has not failed. */
  ghost predicate Hopeful(h: Life) {
    exists k :: 0 <= k < |h.s.slots| &&
      (h.s.slots[k].active.Some? || (!h.s.slots[k].ready && h.s.slots[k].proc !in h.failed))
  }

  /** Neither an accepted submission nor the failure of an idle worker. */
  ghost predicate Quiet(s: State, e: Event) {
    match e
    case Submit(execute, prepared) => !Accepts(s, execute, prepared)
    case Failure(k, p) => !(k < |s.slots| && s.slots[k].proc == p && Idle(s.slots[k]))
    case _ => true
  }

  /** Without hope, no other genuine event moves a job or changes a slot. */
  lemma HopelessStepsChangeNothing(h: Life, i: Input)
    requires Lives(h) && !h.s.drain.shuttingDown && !Hopeful(h)
    requires Genuine(h, i.event) && Quiet(h.s, i.event)
    ensures SameJobs(h.s, Step(h.s, i)) && !Hopeful(After(h, i))
  {
    LivesAlive(h);
    HopelessStep(h, i);
  }

  ghost predicate SameJobs(s: State, r: State) {
    r.queue == s.queue && r.slots == s.slots && r.sends == s.sends && r.log == s.log
  }

  /** A process that can still report ready serves a slot that is not ready. */
  lemma ReadyMeansHope(h: Life, k: nat, p: ProcId)
    requires Alive(h) && Valid(h.s) && !h.s.drain.shuttingDown && Genuine(h, Ready(k, p))
    ensures Hopeful(h)
  {
    assert SlotAlive(h, k) && h.s.slots[k].proc == p;
  }

  lemma HopelessFailure(h: Life, k: nat, p: ProcId, kills: Kills)
    requires Alive(h) && Valid(h.s) && !h.s.drain.shuttingDown && !Hopeful(h)
    requires Genuine(h, Failure(k, p)) && Quiet(h.s, Failure(k, p))
    ensures OnFailure(h.s, k, p, kills) == h.s
  {
    var slot := h.s.slots[k];
    FailureUnfolds(h.s, k, p, kills);
    assert slot.(busy := false, ready := false) == slot;
    assert h.s.slots[k := slot] == h.s.slots;
  }

  lemma HopelessStep(h: Life, i: Input)
    requires Alive(h) && Valid(h.s) && !h.s.drain.shuttingDown && !Hopeful(h)
    requires Genuine(h, i.event) && Quiet(h.s, i.event)
    ensures SameJobs(h.s, Step(h.s, i)) && !Hopeful(After(h, i))
  {
    HopelessJobs(h, i);
    assert After(h, i).s.slots == h.s.slots && h.failed <= After(h, i).failed;
  }

  lemma HopelessJobs(h: Life, i: Input)
    requires Alive(h) && Valid(h.s) && !h.s.drain.shuttingDown && !Hopeful(h)
    requires Genuine(h, i.event) && Quiet(h.s, i.event)
    ensures SameJobs(h.s, Step(h.s, i))
  {
    match i.event {
      case Ready(k, p) =>
        ReadyMeansHope(h, k, p);
        assert false;
      case Reply(k, p, answer) => ReplyDropped(h.s, k, p, answer, i.kills);
      case Failure(k, p) => HopelessFailure(h, k, p, i.kills);
      case TimerFires(t) => HopelessTimer(h, t);
      case Close(p) => FinishShutdownForks(Closed(h.s, p));
      case RequestShutdown(timeoutOk) => ShutdownMovesNoJob(h.s, timeoutOk, i.kills);
      case _ =>
    }
  }

  lemma ShutdownMovesNoJob(s: State, timeoutOk: bool, kills: Kills)
    requires Valid(s) && HandlersInRange(s)
    ensures SameJobs(s, OnShutdown(s, timeoutOk, kills))
  {
    ShutdownKeeps(s, timeoutOk, kills);
  }

  lemma HopelessTimer(h: Life, t: TimerId)
    requires Valid(h.s) && t in h.s.timers
    ensures Hopeful(h)
  {
    TimerFindsItsJob(h.s, t);
  }

  // ---------------------------------------------------------------- serving

  /** Every kill succeeds, and quietly. */
  function Obedient(): Kills { (p, signal) => KillOutcome(true, false) }

  /** Every event of the run is genuine and quiet when it comes. */
  ghost predicate QuietRun(h: Life, inputs: seq<Input>)
    decreases |inputs|
  {
    inputs == [] ||
      var last := |inputs| - 1;
      var before := Lived(h, inputs[..last]);
      QuietRun(h, inputs[..last]) && Genuine(before, inputs[last].event) && Quiet(before.s, inputs[last].event)
  }

  /** A job that waits in s has been sent in r. */
  ghost predicate ServesWaiting(s: State, r: State) {
    exists n, j :: |s.sends| <= n < |r.sends| && 0 <= j < |s.queue| && r.sends[n].id == s.queue[j].id
  }

  ghost predicate CanBeServed(h: Life) {
    exists inputs :: QuietRun(h, inputs) && ServesWaiting(h.s, Lived(h, inputs).s)
  }

  ghost predicate Lost(h: Life) { h.s.drain.shuttingDown || !Hopeful(h) }

  lemma {:induction false} LostRunsSendNothing(h: Life, inputs: seq<Input>)
    requires Alive(h) && Valid(h.s) && Lost(h) && QuietRun(h, inputs)
    ensures Lost(Lived(h, inputs)) && Lived(h, inputs).s.sends == h.s.sends
    decreases |inputs|
  {
    if inputs != [] {
      var last := |inputs| - 1;
      var before := Lived(h, inputs[..last]);
      LostRunsSendNothing(h, inputs[..last]);
      LivedAlive(h, inputs[..last]);
      if before.s.drain.shuttingDown {
        StepForks(before.s, inputs[last]);
      } else {
        HopelessStep(before, inputs[last]);
      }
    }
  }

  /** Dispatch sends the head of the queue when some slot is idle. */
  lemma DispatchSendsHead(q: State, k: nat)
    requires ProcessesOk(q) && !q.drain.shuttingDown && q.queue != [] && k < |q.slots| && Idle(q.slots[k])
    ensures var r := Dispatch(q); q.sends < r.sends && r.sends[|q.sends|].id == q.queue[0].id
  {
    var j := FirstIdle(q.slots, 0);
    NeverRefuses(q, j);
    var started := Start(q, j);
    DispatchLoopExtends(started);
    assert started.sends[|q.sends|].id == q.queue[0].id;
    assert Dispatch(q) == DispatchLoop(started);
  }

  lemma OneStep(h: Life, i: Input)
    requires Genuine(h, i.event) && Quiet(h.s, i.event)
    ensures QuietRun(h, [i]) && Lived(h, [i]) == After(h, i)
  {
    assert [i][..0] == [];
    assert QuietRun(h, []) && Lived(h, []) == h;
  }

  /** The running job's answer frees its worker. */
  lemma AnswerServesHead(h: Life, k: nat)
    requires Alive(h) && Valid(h.s) && !h.s.drain.shuttingDown && h.s.queue != []
    requires k < |h.s.slots| && h.s.slots[k].active.Some?
    ensures CanBeServed(h)
  {
    var s, slot := h.s, h.s.slots[k];
    var answer := Answer(slot.active.value.job.id, false, true);
    var i := Input(Reply(k, slot.proc, answer), Obedient());
    assert SlotAlive(h, k);
    var outcome := Judge(s, slot.proc, slot.active.value.job, answer).0;
    var q := Finish(s, k, outcome, slot.ready);
    ReplyUnfolds(s, k, slot.proc, answer, Obedient());
    DeliveredKeeps(s, k, outcome, slot.ready);
    DispatchSendsHead(q, k);
    Conclude(h, i);
  }

  /** A ready message makes its worker idle. */
  lemma ReadyServesHead(h: Life, k: nat)
    requires Alive(h) && Valid(h.s) && !h.s.drain.shuttingDown && h.s.queue != []
    requires k < |h.s.slots| && !h.s.slots[k].ready && h.s.slots[k].proc !in h.failed
    ensures CanBeServed(h)
  {
    var s, slot := h.s, h.s.slots[k];
    var i := Input(Ready(k, slot.proc), Obedient());
    assert SlotAlive(h, k);
    var q := s.(slots := s.slots[k := slot.(ready := true)]);
    ReadyFlagKeeps(s, k, true);
    DispatchSendsHead(q, k);
    Conclude(h, i);
  }

  lemma Conclude(h: Life, i: Input)
    requires Genuine(h, i.event) && Quiet(h.s, i.event) && h.s.queue != []
    requires var r := Step(h.s, i); h.s.sends < r.sends && r.sends[|h.s.sends|].id == h.s.queue[0].id
    ensures CanBeServed(h)
  {
    OneStep(h, i);
    var r := Lived(h, [i]).s;
    assert r.sends[|h.s.sends|].id == h.s.queue[0].id;
    assert ServesWaiting(h.s, r);
  }

  /** A waiting job can be served without an accepted submission and without the failure of an idle worker if and only
      if the pool is not shutting down and some slot runs a job, or is not ready with a process that has not failed. */
  lemma ServedIffHopeful(h: Life)
    requires Lives(h) && h.s.queue != []
    ensures CanBeServed(h) <==> !h.s.drain.shuttingDown && Hopeful(h)
  {
    LivesAlive(h);
    if !h.s.drain.shuttingDown && Hopeful(h) {
      var k :| 0 <= k < |h.s.slots| &&
          (h.s.slots[k].active.Some? || (!h.s.slots[k].ready && h.s.slots[k].proc !in h.failed));
      if h.s.slots[k].active.Some? { AnswerServesHead(h, k); } else { ReadyServesHead(h, k); }
    } else {
      forall inputs | QuietRun(h, inputs) ensures !ServesWaiting(h.s, Lived(h, inputs).s) {
        LostRunsSendNothing(h, inputs);
      }
    }
  }

  // ---------------------------------------------------------------- a job that is stranded

  /** A job waits, a worker is idle, and nothing that is to come serves it. */
  ghost predicate Stranded(h: Life) { Stuck(h.s) && !Hopeful(h) }

  /** A stranded job stays stranded until a job is accepted, an idle worker fails, or the pool shuts down. */
  lemma StrandedJobsStay(h: Life, i: Input)
    requires Lives(h) && Stranded(h) && Genuine(h, i.event) && Quiet(h.s, i.event)
    ensures SameJobs(h.s, Step(h.s, i))
    ensures Stranded(After(h, i)) <==> !i.event.RequestShutdown?
  {
    LivesAlive(h);
    HopelessStep(h, i);
    ShutdownStarts(h.s, i);
  }

  lemma ShutdownStarts(s: State, i: Input)
    requires Valid(s) && Possible(s, i.event) && !s.drain.shuttingDown
    ensures Step(s, i).drain.shuttingDown <==> i.event.RequestShutdown?
  {
    match i.event {
      case RequestShutdown(timeoutOk) => ShutdownDrains(s, timeoutOk, i.kills);
      case Submit(execute, prepared) => DispatchDrain(Enqueued(s, prepared));
      case Ready(k, p) => DispatchDrain(s.(slots := s.slots[k := s.slots[k].(ready := true)]));
      case _ => DrainOfWorkers(s, i);
    }
  }

  lemma DispatchDrain(s: State)
    ensures Dispatch(s).drain == s.drain
  {
    DispatchWorkers(s);
  }

  lemma ShutdownDrains(s: State, timeoutOk: bool, kills: Kills)
    requires Valid(s) && HandlersInRange(s) && !s.drain.shuttingDown
    ensures OnShutdown(s, timeoutOk, kills).drain.shuttingDown
  {
    ShutdownKeeps(s, timeoutOk, kills);
  }

  lemma DrainOfWorkers(s: State, i: Input)
    requires Valid(s) && Possible(s, i.event) && !s.drain.shuttingDown
    requires i.event.Reply? || i.event.Failure? || i.event.TimerFires? || i.event.Close? || i.event.ShutdownExpires?
    ensures !Step(s, i).drain.shuttingDown
  {
    match i.event {
      case Reply(k, p, answer) =>
        if s.slots[k].proc == p && Runs(s.slots[k], answer.id) {
          ReplyUnfolds(s, k, p, answer, i.kills);
          var (outcome, recycle) := Judge(s, p, s.slots[k].active.value.job, answer);
          var q := Finish(s, k, outcome, s.slots[k].ready);
          RespawnReplaces(q, k, i.kills);
          DispatchWorkers(q);
        }
      case Failure(k, p) =>
        if s.slots[k].proc == p {
          FailureUnfolds(s, k, p, i.kills);
          InterruptedOnlySlot(s, k);
          RespawnReplaces(Interrupted(s, k), k, i.kills);
        }
      case TimerFires(t) => if t in s.timers { TimerKeeps(s, t, i.kills); TimerFindsItsJob(s, t); }
      case Close(p) => FinishShutdownForks(Closed(s, p));
      case ShutdownExpires =>
    }
  }

  /** An accepted submission does serve a stranded job. */
  lemma SubmissionRescues(h: Life, execute: bool, prepared: bool)
    requires Lives(h) && Stranded(h) && Accepts(h.s, execute, prepared)
    ensures ServesWaiting(h.s, OnSubmit(h.s, execute, prepared))
  {
    LivesAlive(h);
    var q := Enqueued(h.s, prepared);
    EnqueuedKeeps(h.s, prepared);
    var k :| 0 <= k < |q.slots| && Idle(q.slots[k]);
    DispatchSendsHead(q, k);
    assert q.queue[0] == h.s.queue[0];
  }

  /** An idle worker that fails is replaced. */
  lemma IdleFailure(s: State, k: nat, kills: Kills)
    requires Basic(s) && !s.drain.shuttingDown && k < |s.slots| && Idle(s.slots[k]) && s.slots[k].active.None?
    ensures var r := OnFailure(s, k, s.slots[k].proc, kills);
      r.queue == s.queue && !r.drain.shuttingDown && |r.slots| == |s.slots|
      && r.slots[k] == Slot(s.children.nextProc, false, false, None)
  {
    FailureUnfolds(s, k, s.slots[k].proc, kills);
    InterruptedOnlySlot(s, k);
    RespawnChangesHands(Interrupted(s, k), k, kills);
  }

  /** So does the failure of an idle worker, by way of its replacement. */
  lemma IdleFailureRescues(h: Life, k: nat, kills: Kills)
    requires Lives(h) && Stranded(h) && k < |h.s.slots| && Idle(h.s.slots[k])
    ensures var e := Failure(k, h.s.slots[k].proc);
      && Genuine(h, e)
      && var g := After(h, Input(e, kills));
        g.s.queue == h.s.queue && !g.s.drain.shuttingDown && Hopeful(g)
  {
    LivesAlive(h);
    assert SlotAlive(h, k);
    ValidIsBasic(h.s);
    IdleFailure(h.s, k, kills);
    assert h.s.children.nextProc !in h.failed + {h.s.slots[k].proc};
  }

  // ---------------------------------------------------------------- a run that strands a job

  lemma BornLives(size: nat)
    ensures Lives(Born(size, false, false))
  {
    assert Lived(Born(size, false, false), []) == Born(size, false, false);
  }

  lemma AfterLives(h: Life, i: Input)
    requires Lives(h) && Genuine(h, i.event)
    ensures Lives(After(h, i))
  {
    var size: nat, builtin: bool, unified: bool, inputs: seq<Input> :|
      (unified ==> builtin) && h == Lived(Born(size, builtin, unified), inputs);
    var longer := inputs + [i];
    assert longer[..|inputs|] == inputs;
    assert Lived(Born(size, builtin, unified), longer) == After(h, i);
  }

  /** Genuine events make reachable states. */
  lemma {:induction false} LivedIsReachable(h: Life, inputs: seq<Input>)
    requires Reachable(h.s)
    ensures Reachable(Lived(h, inputs).s)
    decreases |inputs|
  {
    if inputs != [] {
      var last := |inputs| - 1;
      LivedIsReachable(h, inputs[..last]);
      var before := Lived(h, inputs[..last]);
      if Genuine(before, inputs[last].event) {
        StepIsReachable(before.s, inputs[last]);
      }
    }
  }

  lemma StepIsReachable(s: State, i: Input)
    requires Reachable(s) && Possible(s, i.event)
    ensures Reachable(Step(s, i))
  {
    var size: nat, builtin: bool, unified: bool, inputs: seq<Input> :|
      (unified ==> builtin) && s == Run(Init(size, builtin, unified), inputs);
    var longer := inputs + [i];
    assert longer[..|inputs|] == inputs;
    assert Run(Init(size, builtin, unified), longer) == Step(s, i);
  }

  lemma LivesIsReachable(h: Life)
    requires Lives(h)
    ensures Reachable(h.s)
  {
    var size: nat, builtin: bool, unified: bool, inputs: seq<Input> :|
      (unified ==> builtin) && h == Lived(Born(size, builtin, unified), inputs);
    assert Run(Init(size, builtin, unified), []) == Init(size, builtin, unified);
    LivedIsReachable(Born(size, builtin, unified), inputs);
  }

  /** What the run below depends on. */
  ghost predicate At(h: Life, slots: seq<Slot>, queue: seq<Job>, nextProc: nat, failed: set<ProcId>,
      reported: set<ProcId>) {
    && Lives(h) && !h.s.drain.shuttingDown
    && h.s.slots == slots && h.s.queue == queue && h.s.children.nextProc == nextProc
    && h.failed == failed && h.reported == reported
  }

  lemma Hears(h: Life, k: nat)
    requires Lives(h) && !h.s.drain.shuttingDown && k < |h.s.slots| && h.s.slots[k].proc !in h.failed
    ensures Valid(h.s) && Bound(h.s, k, h.s.slots[k].proc)
  {
    LivesAlive(h);
    assert SlotAlive(h, k);
  }

  lemma ReadyStep(h: Life, k: nat) returns (g: Life)
    requires Lives(h) && !h.s.drain.shuttingDown && h.s.queue == [] && k < |h.s.slots|
    requires h.s.slots[k].proc !in h.failed && h.s.slots[k].proc !in h.reported
    ensures At(g, h.s.slots[k := h.s.slots[k].(ready := true)], [], h.s.children.nextProc, h.failed,
        h.reported + {h.s.slots[k].proc})
    ensures g.s.nextId == h.s.nextId
  {
    Hears(h, k);
    var i := Input(Ready(k, h.s.slots[k].proc), Obedient());
    AfterLives(h, i);
    g := After(h, i);
  }

  /** A job submitted to an empty queue goes to slot 0 when that is idle. */
  lemma SubmitStep(h: Life) returns (g: Life)
    requires Lives(h) && !h.s.drain.shuttingDown && h.s.queue == [] && h.s.slots != [] && Idle(h.s.slots[0])
    ensures var active := Active(Job(h.s.nextId, false, 0, 1), h.s.nextTimer);
      At(g, h.s.slots[0 := h.s.slots[0].(busy := true, active := Some(active))], [], h.s.children.nextProc, h.failed,
         h.reported)
  {
    LivesAlive(h);
    var i := Input(Submit(false, false), Obedient());
    var q := Enqueued(h.s, false);
    assert q.queue == [Job(h.s.nextId, false, 0, 0)];
    assert FirstIdle(q.slots, 0) == 0;
    assert DispatchLoop(q) == DispatchLoop(Start(q, 0)) && Start(q, 0).queue == [];
    AfterLives(h, i);
    g := After(h, i);
  }

  lemma FailureLives(h: Life, k: nat) returns (g: Life)
    requires Lives(h) && !h.s.drain.shuttingDown && k < |h.s.slots| && h.s.slots[k].proc !in h.failed
    ensures Valid(h.s) && HandlersInRange(h.s) && Lives(g) && g.reported == h.reported &&
        g.failed == h.failed + {h.s.slots[k].proc}
    ensures g.s == OnFailure(h.s, k, h.s.slots[k].proc, Obedient())
  {
    Hears(h, k);
    var i := Input(Failure(k, h.s.slots[k].proc), Obedient());
    AfterLives(h, i);
    g := After(h, i);
  }

  lemma FirstCrash(s: State, k: nat)
    requires HandlersInRange(s) && !s.drain.shuttingDown && s.queue == [] && k < |s.slots| && s.slots[k].active.Some?
    requires s.slots[k].active.value.job.retries == 0 && s.slots[k].proc < s.children.nextProc
    ensures var r := OnFailure(s, k, s.slots[k].proc, Obedient());
      && r.queue == [s.slots[k].active.value.job.(retries := 1)] && !r.drain.shuttingDown
      && r.slots == s.slots[k := Slot(s.children.nextProc, false, false, None)]
      && r.children.nextProc == s.children.nextProc + 1
  {
    var q := Requeue(s, k);
    var r := Respawn(q, k, Obedient());
    FailureUnfolds(s, k, s.slots[k].proc, Obedient());
    RequeueOnlySlot(s, k);
    RespawnChangesHands(q, k, Obedient());
    assert q.queue == [s.slots[k].active.value.job.(retries := 1)];
    assert OnFailure(s, k, s.slots[k].proc, Obedient()) == r;
  }

  /** The first crash under the job of slot k. */
  lemma CrashStep(h: Life, k: nat) returns (g: Life)
    requires Lives(h) && !h.s.drain.shuttingDown && h.s.queue == [] && k < |h.s.slots| && h.s.slots[k].active.Some?
    requires h.s.slots[k].active.value.job.retries == 0 && h.s.slots[k].proc !in h.failed
    ensures At(g, h.s.slots[k := Slot(h.s.children.nextProc, false, false, None)],
               [h.s.slots[k].active.value.job.(retries := 1)], h.s.children.nextProc + 1,
               h.failed + {h.s.slots[k].proc}, h.reported)
  {
    g := FailureLives(h, k);
    ValidIsBasic(h.s);
    FirstCrash(h.s, k);
  }

  /** The failure of a process that has not reported ready. */
  lemma EarlyFailureStep(h: Life, k: nat) returns (g: Life)
    requires Lives(h) && !h.s.drain.shuttingDown && k < |h.s.slots| && Down(h.s.slots[k]) &&
        h.s.slots[k].proc !in h.failed
    ensures At(g, h.s.slots, h.s.queue, h.s.children.nextProc, h.failed + {h.s.slots[k].proc}, h.reported)
  {
    g := FailureLives(h, k);
    FailureUnfolds(h.s, k, h.s.slots[k].proc, Obedient());
    assert h.s.slots[k := h.s.slots[k]] == h.s.slots;
  }

  lemma TwoSlots(size: nat) returns (h: Life)
    requires size == 2
    ensures At(h, [Slot(0, false, false, None), Slot(1, false, false, None)], [], 2, {}, {}) && h.s.nextId == 0
  {
    InitIsNew(size, false, false);
    BornLives(size);
    h := Born(size, false, false);
  }

  /** Both workers report ready; worker 0 crashes under the only job, which is queued again. */
  lemma CrashOfTheOnlyJob() returns (h: Life)
    ensures At(h, [Slot(2, false, false, None), Slot(1, false, true, None)], [Job(0, false, 1, 1)], 3, {0}, {0, 1})
    ensures Hopeful(h)
  {
    h := TwoSlots(2);
    h := ReadyStep(h, 0);
    h := ReadyStep(h, 1);
    h := SubmitStep(h);
    h := CrashStep(h, 0);
    assert !h.s.slots[0].ready && h.s.slots[0].proc !in h.failed;
  }

  /** A job can be stranded. After the crash nothing hands the job to worker 1, which is idle. Process 2, the
      replacement, fails before it is ready, and is not replaced. */
  lemma AJobCanBeStranded() returns (h: Life)
    ensures Lives(h) && Reachable(h.s) && Stranded(h)
    ensures h.s.queue == [Job(0, false, 1, 1)] && h.s.slots == [Slot(2, false, false, None), Slot(1, false, true, None)]
    ensures h.failed == {0, 2} && h.reported == {0, 1}
    ensures !CanBeServed(h)
  {
    h := CrashOfTheOnlyJob();
    h := EarlyFailureStep(h, 0);
    LivesIsReachable(h);
    NoHope(h);
    ServedIffHopeful(h);
  }

  lemma NoHope(h: Life)
    requires h.s.slots == [Slot(2, false, false, None), Slot(1, false, true, None)] && h.failed == {0, 2}
    requires h.s.queue != [] && !h.s.drain.shuttingDown
    ensures Stranded(h)
  {
    assert Idle(h.s.slots[1]);
  }
}
