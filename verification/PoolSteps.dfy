/** Every handler of the pool keeps the invariant. */
module PoolSteps {
  import opened Options
  import opened PoolModel
  import opened PoolLedger
  import opened PoolInvariant

  // ---------------------------------------------------------------- signalling

  /** Nothing but the signal records of outstanding processes and the killed marks has changed. */
  ghost predicate OnlySignals(s: State, r: State) {
    r == s.(children := s.children.(outstanding := r.children.outstanding, killed := r.children.killed)) &&
      r.children.outstanding.Keys == s.children.outstanding.Keys
  }

  lemma OnlySignalsKeeps(s: State, r: State, hole: nat)
    requires Consistent(s, hole) && OnlySignals(s, r)
    ensures Consistent(r, hole)
  {
    assert forall p: ProcId :: p in r.children.outstanding <==> p in s.children.outstanding;
  }

  /** A slot that neither runs a job nor is ready. */
  ghost predicate Down(slot: Slot) {
    !slot.ready && !slot.busy && slot.active.None?
  }

  /** An error that kill emits while it runs finds no handler, or one with nothing to do. */
  lemma SignalIsBookkeeping(s: State, p: ProcId, signal: Signal, kills: Kills)
    requires HandlersInRange(s)
    requires p in s.children.attached ==> s.drain.shuttingDown || Down(s.slots[s.children.attached[p]])
    ensures SignalChild(s, p, signal, kills)
         == MarkKilled(Requested(s, p, SignalRequest(signal, kills(p, signal).sent)), p, kills(p, signal).sent)
    ensures OnlySignals(s, SignalChild(s, p, signal, kills))
  {
    var kill := kills(p, signal);
    var asked := Requested(s, p, SignalRequest(signal, kill.sent));
    assert OnlySignals(s, asked);
    if kill.emitsError && p in s.children.attached {
      var k := s.children.attached[p];
      assert OnFailure(asked, k, p, kills) == asked by {
        assert Down(asked.slots[k]) ==> asked.slots[k := asked.slots[k].(busy := false, ready := false)] == asked.slots;
      }
    }
  }

  lemma SignalAllIsBookkeeping(s: State, p: ProcId, bound: nat, kills: Kills)
    requires HandlersInRange(s) && s.drain.shuttingDown
    ensures OnlySignals(s, SignalAll(s, p, bound, kills))
    decreases bound - p
  {
    if p < bound {
      if Unsignalled(s, p) {
        SignalIsBookkeeping(s, p, SigTerm, kills);
        SignalAllIsBookkeeping(SignalChild(s, p, SigTerm, kills), p + 1, bound, kills);
      } else {
        SignalAllIsBookkeeping(s, p + 1, bound, kills);
      }
    }
  }

  // ---------------------------------------------------------------- replacing a process

  lemma HoleWeakens(s: State, k: nat)
    requires Consistent(s, |s.slots|)
    ensures Consistent(s, k)
  {
    assert forall p: ProcId :: Retired(s.slots, s.children.nextProc, |s.slots|, p) ==>
        Retired(s.slots, s.children.nextProc, k, p);
  }

  lemma ReplaceKeepsJobs(s: State, k: nat)
    requires JobsOk(s) && k < |s.slots| && s.slots[k].active.None?
    ensures JobsOk(Replace(s, k))
  {
    var r := Replace(s, k);
    SlotUpdate(s.slots, k, r.slots[k]);
    assert forall id: nat :: Places(r.queue, r.slots, r.log, id) == Places(s.queue, s.slots, s.log, id);
  }

  lemma ReplaceKeepsProcesses(s: State, k: nat)
    requires ProcessesOk(s) && !s.drain.shuttingDown && k < |s.slots| && s.slots[k].active.None?
    ensures ProcessesOk(Replace(Detach(s, s.slots[k].proc), k))
  {
    var r := Replace(Detach(s, s.slots[k].proc), k);
    assert CurrentOk(r.slots, r.children.attached, r.children.nextProc);
    assert PreparedOk(r.queue, r.slots, r.children.builtin);
  }

  lemma ReplaceAfterSignals(detached: State, signalled: State, k: nat)
    requires OnlySignals(detached, signalled) && k < |detached.slots|
    ensures OnlySignals(Replace(detached, k), Replace(signalled, k))
  {
    var a, b := Replace(detached, k), Replace(signalled, k);
    assert b.children.outstanding.Keys == signalled.children.outstanding.Keys + {detached.children.nextProc};
    assert a.children.outstanding.Keys == detached.children.outstanding.Keys + {detached.children.nextProc};
  }

  /** A retirement: one process is forked, the slot is its own, the retired one has no handlers left,
      and an error that the kill emits on the way does not fork another. */
  lemma RespawnReplaces(s: State, k: nat, kills: Kills)
    requires !s.drain.shuttingDown && HandlersInRange(s) && k < |s.slots|
    ensures OnlySignals(Replace(Detach(s, s.slots[k].proc), k), Respawn(s, k, kills))
  {
    var retiring := s.slots[k].proc;
    var detached := Detach(s, retiring);
    if retiring in s.children.killed {
      ReplaceAfterSignals(detached, detached, k);
    } else {
      SignalIsBookkeeping(detached, retiring, SigTerm, kills);
      ReplaceAfterSignals(detached, SignalChild(detached, retiring, SigTerm, kills), k);
    }
  }

  lemma RespawnKeeps(s: State, k: nat, kills: Kills)
    requires Consistent(s, k) && !s.drain.shuttingDown && HandlersInRange(s)
    requires k < |s.slots| && s.slots[k].active.None?
    ensures Consistent(Respawn(s, k, kills), |s.slots|)
  {
    var detached := Detach(s, s.slots[k].proc);
    RespawnReplaces(s, k, kills);
    ReplaceKeepsJobs(detached, k);
    ReplaceKeepsHistory(detached, k);
    ReplaceKeepsProcesses(s, k);
    OnlySignalsKeeps(Replace(detached, k), Respawn(s, k, kills), |s.slots|);
  }

  // ---------------------------------------------------------------- dispatch

  /** Nothing outside the queue, the slots' jobs and the job records has changed. */
  ghost predicate OnlyJobs(s: State, r: State) {
    && r == s.(slots := r.slots, queue := r.queue, pending := r.pending, timers := r.timers,
               nextTimer := r.nextTimer, sends := r.sends, log := r.log)
    && |r.slots| == |s.slots|
    && (forall k :: 0 <= k < |s.slots| ==> r.slots[k].proc == s.slots[k].proc && r.slots[k].ready == s.slots[k].ready)
  }

  lemma StartKeepsProcesses(s: State, k: nat)
    requires ProcessesOk(s) && k < |s.slots| && s.queue != []
    ensures ProcessesOk(Start(s, k))
  {
    var r := Start(s, k);
    assert PreparedOk(r.queue, r.slots, r.children.builtin) by {
      assert forall i :: 0 <= i < |r.queue| ==> r.queue[i] == s.queue[i + 1];
    }
  }

  /** Dispatch sends no prepared job away, since every child of a pool that accepts one is builtin. */
  lemma NeverRefuses(s: State, k: nat)
    requires ProcessesOk(s) && s.queue != [] && k < |s.slots|
    ensures !(s.queue[0].prepared && s.slots[k].proc !in s.children.preparedChildren)
  {
  }

  /** No job waits, or no slot could take it. */
  ghost predicate Served(s: State) {
    s.queue == [] || forall k :: 0 <= k < |s.slots| ==> !Idle(s.slots[k])
  }

  lemma StartFrame(s: State, k: nat)
    requires s.queue != [] && k < |s.slots|
    ensures OnlyJobs(s, Start(s, k))
  {
    var r := Start(s, k);
    assert r.slots[k].proc == s.slots[k].proc && r.slots[k].ready == s.slots[k].ready;
  }

  lemma RefuseFrame(s: State)
    requires s.queue != []
    ensures OnlyJobs(s, Refuse(s))
  {
  }

  lemma DispatchOnceFrame(s: State, k: nat)
    requires s.queue != [] && k < |s.slots|
    ensures OnlyJobs(s, DispatchOnce(s, k))
  {
    StartFrame(s, k);
    RefuseFrame(s);
  }

  lemma OnlyJobsTransitive(a: State, b: State, c: State)
    requires OnlyJobs(a, b) && OnlyJobs(b, c)
    ensures OnlyJobs(a, c)
  {
  }

  lemma {:induction false} DispatchLoopFrame(s: State)
    ensures OnlyJobs(s, DispatchLoop(s))
    decreases |s.queue|
  {
    var k := FirstIdle(s.slots, 0);
    if s.queue != [] && k < |s.slots| {
      DispatchOnceFrame(s, k);
      DispatchLoopFrame(DispatchOnce(s, k));
      OnlyJobsTransitive(s, DispatchOnce(s, k), DispatchLoop(s));
    }
  }

  lemma {:induction false} DispatchLoopServes(s: State)
    ensures Served(DispatchLoop(s))
    decreases |s.queue|
  {
    var k := FirstIdle(s.slots, 0);
    if s.queue != [] && k < |s.slots| {
      DispatchLoopServes(DispatchOnce(s, k));
    }
  }

  lemma StartKeeps(s: State, k: nat)
    requires Consistent(s, |s.slots|) && k < |s.slots| && Idle(s.slots[k]) && s.queue != []
    ensures Consistent(Start(s, k), |s.slots|)
  {
    StartKeepsJobs(s, k);
    StartKeepsHistory(s, k);
    StartKeepsProcesses(s, k);
  }

  lemma {:induction false} DispatchLoopKeeps(s: State)
    requires Consistent(s, |s.slots|)
    ensures Consistent(DispatchLoop(s), |s.slots|)
    decreases |s.queue|
  {
    var k := FirstIdle(s.slots, 0);
    if s.queue != [] && k < |s.slots| {
      NeverRefuses(s, k);
      StartKeeps(s, k);
      var next := Start(s, k);
      assert DispatchLoop(s) == DispatchLoop(next) && |next.slots| == |s.slots|;
      DispatchLoopKeeps(next);
    }
  }

  lemma DispatchServes(s: State)
    ensures !Stuck(Dispatch(s))
  {
    DispatchLoopServes(s);
  }

  lemma DispatchKeeps(s: State)
    requires Consistent(s, |s.slots|)
    ensures Valid(Dispatch(s))
  {
    DispatchServes(s);
    DispatchLoopKeeps(s);
    DispatchLoopFrame(s);
  }

  // ---------------------------------------------------------------- the handlers

  /** A slot that is not ready satisfies the wake-up clause for any queue. */
  lemma NotReadyWakes(s: State, k: nat)
    requires k < |s.slots| && !s.slots[k].ready && Consistent(s, |s.slots|)
    ensures Valid(s)
  {
  }

  lemma EnqueuedKeepsJobs(s: State, prepared: bool)
    requires JobsOk(s)
    ensures JobsOk(Enqueued(s, prepared))
  {
    var r := Enqueued(s, prepared);
    forall id: nat ensures Places(r.queue, r.slots, r.log, id) == if id < r.nextId then 1 else 0 {
      InQueueAppend(s.queue, r.queue[|s.queue|], id);
      assert Places(s.queue, s.slots, s.log, id) == if id < s.nextId then 1 else 0;
    }
  }

  lemma EnqueuedKeepsSends(s: State, prepared: bool)
    requires HistoryOk(s, |s.slots|)
    ensures var r := Enqueued(s, prepared);
      SendsOk(r.queue, r.slots, r.log, r.sends, r.nextId) &&
        RetiredOk(r.queue, r.slots, r.sends, r.children.nextProc, |s.slots|)
  {
    var r := Enqueued(s, prepared);
    assert forall i :: 0 <= i < |s.queue| ==> r.queue[i] == s.queue[i];
    assert SentTo(s.sends, s.nextId) == [];
  }

  lemma EnqueuedKeepsQueue(s: State, prepared: bool)
    requires QueueOk(s.queue, s.nextId) && OrderOk(s.queue, s.sends, s.nextId) && CapacityOk(s.queue, s.slots)
    ensures var r := Enqueued(s, prepared);
      QueueOk(r.queue, r.nextId) && OrderOk(r.queue, r.sends, r.nextId) && CapacityOk(r.queue, r.slots)
  {
    var r := Enqueued(s, prepared);
    WaitingAppend(s.queue, r.queue[|s.queue|]);
    assert forall i :: 0 <= i < |s.queue| ==> r.queue[i] == s.queue[i];
  }

  lemma EnqueuedKeepsHistory(s: State, prepared: bool)
    requires HistoryOk(s, |s.slots|)
    ensures HistoryOk(Enqueued(s, prepared), |s.slots|)
  {
    EnqueuedKeepsSends(s, prepared);
    EnqueuedKeepsQueue(s, prepared);
  }

  lemma EnqueuedKeeps(s: State, prepared: bool)
    requires Consistent(s, |s.slots|) && (prepared ==> s.children.builtin)
    ensures Consistent(Enqueued(s, prepared), |s.slots|)
  {
    var r := Enqueued(s, prepared);
    EnqueuedKeepsJobs(s, prepared);
    EnqueuedKeepsHistory(s, prepared);
    assert PreparedOk(r.queue, r.slots, r.children.builtin) by {
      assert forall i :: 0 <= i < |s.queue| ==> r.queue[i] == s.queue[i];
    }
  }

  lemma SubmitKeeps(s: State, execute: bool, prepared: bool)
    requires Valid(s)
    ensures Valid(OnSubmit(s, execute, prepared))
  {
    if Accepts(s, execute, prepared) {
      assert prepared ==> s.children.builtin;
      EnqueuedKeeps(s, prepared);
      DispatchKeeps(Enqueued(s, prepared));
    }
  }

  /** Changing the ready flag of a slot without a job. */
  lemma ReadyFlagKeepsJobs(s: State, k: nat, ready: bool)
    requires JobsOk(s) && k < |s.slots| && (ready || s.slots[k].active.None?)
    ensures JobsOk(s.(slots := s.slots[k := s.slots[k].(ready := ready)]))
  {
    var r := s.(slots := s.slots[k := s.slots[k].(ready := ready)]);
    SlotUpdate(s.slots, k, r.slots[k]);
    assert forall id: nat :: Places(r.queue, r.slots, r.log, id) == Places(s.queue, s.slots, s.log, id);
  }

  lemma ReadyFlagKeepsHistory(s: State, k: nat, ready: bool)
    requires HistoryOk(s, |s.slots|) && k < |s.slots|
    ensures HistoryOk(s.(slots := s.slots[k := s.slots[k].(ready := ready)]), |s.slots|)
  {
    var r := s.(slots := s.slots[k := s.slots[k].(ready := ready)]);
    FirstTriesUpdate(s.slots, k, r.slots[k]);
    assert forall j :: 0 <= j < |s.slots| ==>
        r.slots[j].proc == s.slots[j].proc && r.slots[j].active == s.slots[j].active;
    assert forall p: ProcId :: Retired(s.slots, s.children.nextProc, |s.slots|, p) ==>
        Retired(r.slots, r.children.nextProc, |s.slots|, p);
  }

  lemma ReadyFlagKeeps(s: State, k: nat, ready: bool)
    requires Consistent(s, |s.slots|) && k < |s.slots| && (ready || s.slots[k].active.None?)
    ensures Consistent(s.(slots := s.slots[k := s.slots[k].(ready := ready)]), |s.slots|)
  {
    ReadyFlagKeepsJobs(s, k, ready);
    ReadyFlagKeepsHistory(s, k, ready);
  }

  lemma ReadyKeeps(s: State, k: nat, p: ProcId)
    requires Valid(s) && k < |s.slots|
    ensures Valid(OnReady(s, k, p))
  {
    if !s.drain.shuttingDown && s.slots[k].proc == p {
      ReadyFlagKeeps(s, k, true);
      DispatchKeeps(s.(slots := s.slots[k := s.slots[k].(ready := true)]));
    }
  }

  lemma FinishKeepsProcesses(s: State, k: nat, outcome: Outcome, ready: bool)
    requires ProcessesOk(s) && k < |s.slots| && s.slots[k].active.Some?
    ensures ProcessesOk(Finish(s, k, outcome, ready))
  {
  }

  lemma RequeueKeepsProcesses(s: State, k: nat)
    requires ProcessesOk(s) && k < |s.slots| && s.slots[k].active.Some?
    ensures ProcessesOk(Requeue(s, k))
  {
    var r := Requeue(s, k);
    assert PreparedOk(r.queue, r.slots, r.children.builtin) by {
      assert forall i :: 0 < i < |r.queue| ==> r.queue[i] == s.queue[i - 1];
    }
  }

  lemma RespawnValid(s: State, k: nat, kills: Kills)
    requires Consistent(s, k) && !s.drain.shuttingDown && HandlersInRange(s)
    requires k < |s.slots| && s.slots[k].active.None?
    ensures Valid(Respawn(s, k, kills))
  {
    RespawnReplaces(s, k, kills);
    RespawnKeeps(s, k, kills);
    NotReadyWakes(Respawn(s, k, kills), k);
  }

  lemma DeliveredKeeps(s: State, k: nat, outcome: Outcome, ready: bool)
    requires Consistent(s, |s.slots|) && k < |s.slots| && s.slots[k].active.Some?
    requires outcome in {Answered(s.slots[k].proc), Invalid(s.slots[k].proc), TimedOut}
    ensures Consistent(Finish(s, k, outcome, ready), |s.slots|) && Consistent(Finish(s, k, outcome, ready), k)
  {
    FinishKeepsJobs(s, k, outcome, ready);
    FinishKeepsHistory(s, k, outcome, ready);
    FinishKeepsProcesses(s, k, outcome, ready);
    HoleWeakens(Finish(s, k, outcome, ready), k);
  }

  /** The reply handler once its guards have passed. */
  lemma ReplyUnfolds(s: State, k: nat, p: ProcId, answer: Answer, kills: Kills)
    requires HandlersInRange(s) && k < |s.slots| && !s.drain.shuttingDown && s.slots[k].proc == p
    requires Runs(s.slots[k], answer.id) && answer.id in s.pending
    ensures var (outcome, recycle) := Judge(s, p, s.slots[k].active.value.job, answer);
      var q := Finish(s, k, outcome, s.slots[k].ready);
      OnAnswer(s, k, p, answer, kills) == if recycle then Respawn(q, k, kills) else Dispatch(q)
  {
  }

  /** An answer for a slot that does not run its job, or from another process than the slot's, is dropped. */
  lemma ReplyDropped(s: State, k: nat, p: ProcId, answer: Answer, kills: Kills)
    requires HandlersInRange(s) && k < |s.slots|
    requires s.drain.shuttingDown || s.slots[k].proc != p || !Runs(s.slots[k], answer.id)
    ensures OnAnswer(s, k, p, answer, kills) == s
  {
  }

  lemma DeliveredValid(s: State, k: nat, outcome: Outcome, recycle: bool, kills: Kills)
    requires Valid(s) && k < |s.slots| && s.slots[k].active.Some? && HandlersInRange(s) && !s.drain.shuttingDown
    requires outcome in {Answered(s.slots[k].proc), Invalid(s.slots[k].proc)}
    ensures var q := Finish(s, k, outcome, s.slots[k].ready);
      Valid(if recycle then Respawn(q, k, kills) else Dispatch(q))
  {
    var q := Finish(s, k, outcome, s.slots[k].ready);
    DeliveredKeeps(s, k, outcome, s.slots[k].ready);
    if recycle { RespawnValid(q, k, kills); } else { DispatchKeeps(q); }
  }

  lemma AnswerKeeps(s: State, k: nat, p: ProcId, answer: Answer, kills: Kills)
    requires Valid(s) && k < |s.slots| && HandlersInRange(s)
    ensures Valid(OnAnswer(s, k, p, answer, kills))
  {
    if s.drain.shuttingDown || s.slots[k].proc != p || !Runs(s.slots[k], answer.id) {
      ReplyDropped(s, k, p, answer, kills);
    } else {
      var (outcome, recycle) := Judge(s, p, s.slots[k].active.value.job, answer);
      ReplyUnfolds(s, k, p, answer, kills);
      DeliveredValid(s, k, outcome, recycle, kills);
    }
  }

  /** The state handed to respawnFork when the process of slot k fails. */
  function Interrupted(s: State, k: nat): State
    requires k < |s.slots|
  {
    var slot := s.slots[k];
    if slot.active.None? then s.(slots := s.slots[k := slot.(busy := false, ready := false)])
    else if slot.active.value.job.retries < MAX_WORKER_CRASH_RETRIES then Requeue(s, k)
    else Finish(s, k, CrashedTwice, false)
  }

  lemma InterruptedKeeps(s: State, k: nat)
    requires Consistent(s, |s.slots|) && k < |s.slots|
    ensures Consistent(Interrupted(s, k), k)
    ensures s.slots[k].active.None? ==> Consistent(Interrupted(s, k), |s.slots|)
  {
    var slot := s.slots[k];
    var r := Interrupted(s, k);
    if slot.active.None? {
      ReadyFlagKeeps(s, k, false);
      assert slot.(busy := false, ready := false) == slot.(ready := false);
      HoleWeakens(r, k);
    } else if slot.active.value.job.retries < MAX_WORKER_CRASH_RETRIES {
      RequeueKeepsJobs(s, k);
      RequeueKeepsHistory(s, k);
      RequeueKeepsProcesses(s, k);
    } else {
      FinishKeepsJobs(s, k, CrashedTwice, false);
      FinishKeepsHistory(s, k, CrashedTwice, false);
      FinishKeepsProcesses(s, k, CrashedTwice, false);
      HoleWeakens(r, k);
    }
  }

  lemma FailureUnfolds(s: State, k: nat, p: ProcId, kills: Kills)
    requires HandlersInRange(s) && k < |s.slots| && !s.drain.shuttingDown && s.slots[k].proc == p
    ensures OnFailure(s, k, p, kills) ==
      if s.slots[k].active.Some? || s.slots[k].ready then Respawn(Interrupted(s, k), k, kills) else Interrupted(s, k)
  {
  }

  lemma InterruptedValid(s: State, k: nat, kills: Kills)
    requires Valid(s) && k < |s.slots| && HandlersInRange(s) && !s.drain.shuttingDown
    ensures s.slots[k].active.Some? || s.slots[k].ready ==> Valid(Respawn(Interrupted(s, k), k, kills))
    ensures s.slots[k].active.None? ==> Valid(Interrupted(s, k))
  {
    InterruptedKeeps(s, k);
    RespawnValid(Interrupted(s, k), k, kills);
    if s.slots[k].active.None? {
      NotReadyWakes(Interrupted(s, k), k);
    }
  }

  lemma FailureKeeps(s: State, k: nat, p: ProcId, kills: Kills)
    requires Valid(s) && k < |s.slots| && HandlersInRange(s)
    ensures Valid(OnFailure(s, k, p, kills))
  {
    if !s.drain.shuttingDown && s.slots[k].proc == p {
      FailureUnfolds(s, k, p, kills);
      InterruptedValid(s, k, kills);
    }
  }

  /** The timer callback finds its own job, so it does exactly what finishing that job does. */
  lemma TimerFindsItsJob(s: State, t: TimerId)
    requires JobsOk(s) && t in s.timers
    ensures var k, job := s.timers[t].slot, s.timers[t].job;
      && k < |s.slots| && s.slots[k].active == Some(Active(job, t))
      && Finish(s, k, TimedOut, false) == Expire(s, t)
  {
  }

  lemma TimerKeeps(s: State, t: TimerId, kills: Kills)
    requires Valid(s) && HandlersInRange(s) && (t in s.timers ==> s.timers[t].slot < |s.slots|)
    ensures Valid(OnTimer(s, t, kills))
    ensures t in s.timers ==>
      OnlySignals(if s.drain.shuttingDown then Finish(s, s.timers[t].slot, TimedOut, false)
                  else Replace(Detach(Finish(s, s.timers[t].slot, TimedOut, false), s.slots[s.timers[t].slot].proc),
                    s.timers[t].slot),
                  OnTimer(s, t, kills))
  {
    if t in s.timers {
      TimerFindsItsJob(s, t);
      var k := s.timers[t].slot;
      var p := s.slots[k].proc;
      var expired := Finish(s, k, TimedOut, false);
      DeliveredKeeps(s, k, TimedOut, false);
      SignalIsBookkeeping(expired, p, SigKill, kills);
      var signalled := SignalChild(expired, p, SigKill, kills);
      OnlySignalsKeeps(expired, signalled, |s.slots|);
      if !s.drain.shuttingDown {
        HoleWeakens(signalled, k);
        RespawnReplaces(signalled, k, kills);
        RespawnValid(signalled, k, kills);
        ReplaceAfterSignals(Detach(expired, p), Detach(signalled, p), k);
      }
    }
  }

  lemma ClosedKeepsLifetimes(c: Children, p: ProcId)
    requires LifetimesOk(c) && p in c.outstanding
    ensures LifetimesOk(c.(outstanding := c.outstanding - {p}, closed := c.closed + {p}))
  {
  }

  lemma ClosedKeepsShutdown(s: State, p: ProcId)
    requires ShutdownOk(s.drain, s.children.outstanding.Keys) && p in s.children.outstanding
    ensures var r := OnClose(s, p); ShutdownOk(r.drain, r.children.outstanding.Keys)
  {
    var closed := Closed(s, p);
    assert closed.children.outstanding == map[] <==> closed.children.outstanding.Keys == {};
  }

  lemma CloseKeeps(s: State, p: ProcId)
    requires Valid(s)
    ensures Valid(OnClose(s, p))
  {
    if p in s.children.outstanding {
      ClosedKeepsLifetimes(s.children, p);
      ClosedKeepsShutdown(s, p);
    }
  }

  lemma ClosingKeeps(s: State, timeoutOk: bool)
    requires Consistent(s, |s.slots|) && s.drain.shutdown == NotRequested
    ensures Consistent(Closing(s, timeoutOk), |s.slots|) && Closing(s, timeoutOk).drain.shuttingDown
  {
    var r := Closing(s, timeoutOk);
    assert s.children.outstanding == map[] <==> s.children.outstanding.Keys == {};
    assert ShutdownOk(r.drain, r.children.outstanding.Keys);
  }

  lemma ShutdownKeeps(s: State, timeoutOk: bool, kills: Kills)
    requires Valid(s) && HandlersInRange(s)
    ensures Valid(OnShutdown(s, timeoutOk, kills))
    ensures s.drain.shutdown == NotRequested ==> OnlySignals(Closing(s, timeoutOk), OnShutdown(s, timeoutOk, kills))
  {
    if s.drain.shutdown == NotRequested {
      var closing := Closing(s, timeoutOk);
      ClosingKeeps(s, timeoutOk);
      SignalAllIsBookkeeping(closing, 0, s.children.nextProc, kills);
      OnlySignalsKeeps(closing, SignalAll(closing, 0, s.children.nextProc, kills), |s.slots|);
    }
  }

  lemma ShutdownTimerKeeps(s: State)
    requires Valid(s)
    ensures Valid(OnShutdownTimer(s))
  {
  }

  // ---------------------------------------------------------------- runs

  /** The few facts that telling the branches of a handler apart takes. */
  ghost predicate Basic(s: State) {
    && HandlersInRange(s)
    && forall k :: 0 <= k < |s.slots| ==>
         && s.slots[k].proc < s.children.nextProc
         && (s.slots[k].active.Some? ==> s.slots[k].active.value.job.id in s.pending)
  }

  lemma ValidIsBasic(s: State)
    requires Valid(s)
    ensures Basic(s)
  {
  }

  lemma ValidIsPossible(s: State, e: Event)
    requires Valid(s)
    ensures Possible(s, e) <==> (e.Ready? || e.Reply? || e.Failure? ==> e.slot < |s.slots|)
  {
  }

  lemma StepKeeps(s: State, i: Input)
    requires Valid(s) && Possible(s, i.event)
    ensures Valid(Step(s, i))
  {
    match i.event {
      case Submit(execute, prepared) => SubmitKeeps(s, execute, prepared);
      case Ready(k, p) => ReadyKeeps(s, k, p);
      case Reply(k, p, answer) => AnswerKeeps(s, k, p, answer, i.kills);
      case Failure(k, p) => FailureKeeps(s, k, p, i.kills);
      case _ => OtherStepKeeps(s, i);
    }
  }

  lemma OtherStepKeeps(s: State, i: Input)
    requires Valid(s) && Possible(s, i.event)
    requires i.event.TimerFires? || i.event.Close? || i.event.RequestShutdown? || i.event.ShutdownExpires?
    ensures Valid(Step(s, i))
  {
    match i.event {
      case TimerFires(t) => TimerKeeps(s, t, i.kills);
      case Close(p) => CloseKeeps(s, p);
      case RequestShutdown(timeoutOk) => ShutdownKeeps(s, timeoutOk, i.kills);
      case ShutdownExpires => ShutdownTimerKeeps(s);
    }
  }

  /** A pool that has only been built. */
  ghost predicate New(s: State) {
    && !s.drain.shuttingDown && s.queue == [] && s.log == [] && s.sends == [] && s.children.closed == {}
    && s.nextId == 0 && s.children.nextProc == |s.slots|
    && forall k :: 0 <= k < |s.slots| ==> s.slots[k] == Slot(k, false, false, None)
  }

  lemma NoSlotsValid(builtin: bool, unified: bool)
    requires unified ==> builtin
    ensures Valid(NoSlots(builtin, unified)) && New(NoSlots(builtin, unified))
  {
    var s := NoSlots(builtin, unified);
    assert LifetimesOk(s.children);
    assert Waiting(s.queue) == 0;
    assert FirstSends(s.sends) == [];
  }

  lemma GrownKeepsJobs(s: State)
    requires JobsOk(s) && New(s)
    ensures JobsOk(Grown(s))
  {
    var r := Grown(s);
    assert r.slots[..|s.slots|] == s.slots;
    forall id: nat ensures Places(r.queue, r.slots, r.log, id) == 0 {
      assert Places(s.queue, s.slots, s.log, id) == 0;
    }
  }

  lemma GrownKeepsProcesses(s: State)
    requires ProcessesOk(s) && New(s)
    ensures ProcessesOk(Grown(s)) && New(Grown(s))
  {
    var r := Grown(s);
    assert CurrentOk(r.slots, r.children.attached, r.children.nextProc);
    assert LifetimesOk(r.children) by {
      forall p: ProcId ensures p in r.children.outstanding <==> p < r.children.nextProc {
        assert p in s.children.outstanding <==> p < s.children.nextProc && p !in s.children.closed;
      }
    }
  }

  lemma GrownKeeps(s: State)
    requires Valid(s) && New(s)
    ensures Valid(Grown(s)) && New(Grown(s)) && |Grown(s).slots| == |s.slots| + 1
  {
    var r := Grown(s);
    GrownKeepsJobs(s);
    GrownKeepsProcesses(s);
    assert r.slots[..|s.slots|] == s.slots;
    assert HistoryOk(r, |r.slots|);
  }

  /** A new pool of any size satisfies the invariant. */
  lemma {:induction false} InitValid(size: nat, builtin: bool, unified: bool)
    requires unified ==> builtin
    ensures Valid(Init(size, builtin, unified)) && New(Init(size, builtin, unified))
    ensures |Init(size, builtin, unified).slots| == size
  {
    if size == 0 {
      NoSlotsValid(builtin, unified);
    } else {
      InitValid(size - 1, builtin, unified);
      GrownKeeps(Init(size - 1, builtin, unified));
    }
  }

  lemma {:induction false} RunKeeps(s: State, inputs: seq<Input>)
    requires Valid(s)
    ensures Valid(Run(s, inputs))
    decreases |inputs|
  {
    if inputs != [] {
      var last := |inputs| - 1;
      RunKeeps(s, inputs[..last]);
      var before := Run(s, inputs[..last]);
      if Possible(before, inputs[last].event) {
        StepKeeps(before, inputs[last]);
      }
    }
  }
}
