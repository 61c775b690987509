/** What the pool promises over whole runs, for a pool of any size and any interleaving of events. */
module PoolTheorems {
  import opened Options
  import opened PoolModel
  import opened PoolLedger
  import opened PoolInvariant
  import opened PoolSteps

  /** States that some run of a new pool ends in. */
  ghost predicate Reachable(s: State) {
    exists size: nat, builtin: bool, unified: bool, inputs: seq<Input> ::
      (unified ==> builtin) && s == Run(Init(size, builtin, unified), inputs)
  }

  lemma ReachableIsValid(s: State)
    requires Reachable(s)
    ensures Valid(s)
  {
    var size: nat, builtin: bool, unified: bool, inputs: seq<Input> :|
      (unified ==> builtin) && s == Run(Init(size, builtin, unified), inputs);
    InitValid(size, builtin, unified);
    RunKeeps(Init(size, builtin, unified), inputs);
  }

  /** A run passes over an event only when it comes from a listener of a slot that the pool does not have. */
  lemma OnlyEventsOfMissingSlotsArePassedOver(s: State, e: Event)
    requires Reachable(s)
    ensures !Possible(s, e) <==> (e.Ready? || e.Reply? || e.Failure?) && e.slot >= |s.slots|
  {
    ReachableIsValid(s);
    ValidIsPossible(s, e);
  }

  // ---------------------------------------------------------------- jobs

  /** Each submitted job waits in the queue, or is active on one slot, or is settled once: exactly one
      of the three, exactly once. No other job appears anywhere. */
  lemma EachJobHasOnePlace(s: State, id: JobId)
    requires Reachable(s)
    ensures InQueue(s.queue, id) + OnSlots(s.slots, id) + InLog(s.log, id) == if id < s.nextId then 1 else 0
  {
    ReachableIsValid(s);
    assert Places(s.queue, s.slots, s.log, id) == if id < s.nextId then 1 else 0;
  }

  /** busy is set exactly on the slots with a job, and the keys of pending are exactly their job ids. */
  lemma BusyAndPendingAgree(s: State)
    requires Reachable(s)
    ensures forall k :: 0 <= k < |s.slots| ==>
      (s.slots[k].busy <==> s.slots[k].active.Some?) && (s.slots[k].busy ==> s.slots[k].ready)
    ensures s.pending.Keys == set k | 0 <= k < |s.slots| && s.slots[k].active.Some? :: s.slots[k].active.value.job.id
  {
    ReachableIsValid(s);
    var ids := set k | 0 <= k < |s.slots| && s.slots[k].active.Some? :: s.slots[k].active.value.job.id;
    forall id | id in s.pending ensures id in ids {
      var k := OnSlotsFind(s.slots, id);
    }
  }

  /** A settled job was sent at most twice, the second time to another process; an answer that settled it
      came from the process it was sent to last, and none was turned away by dispatch. */
  lemma AnswersComeFromTheLastSend(s: State, i: nat)
    requires Reachable(s) && i < |s.log|
    ensures var sentTo := SentTo(s.sends, s.log[i].id);
      && 1 <= |sentTo| <= 2 && s.log[i].attempts == |sentTo|
      && (|sentTo| == 2 ==> sentTo[0] != sentTo[1])
      && (s.log[i].outcome.Answered? || s.log[i].outcome.Invalid? ==> s.log[i].outcome.worker == sentTo[|sentTo| - 1])
      && (s.log[i].outcome == CrashedTwice ==> |sentTo| == 2)
      && s.log[i].outcome != Refused
  {
    ReachableIsValid(s);
  }

  /** The timer callback does not check what it captured, and need not: the job of a live timer is
      active, on the slot the timer was started for, under this very timer. */
  lemma LiveTimerOwnsItsSlot(s: State, t: TimerId)
    requires Reachable(s) && t in s.timers
    ensures s.timers[t].slot < |s.slots|
    ensures s.slots[s.timers[t].slot].active == Some(Active(s.timers[t].job, t))
    ensures s.timers[t].job.id in s.pending
  {
    ReachableIsValid(s);
  }

  /** Attempts of a job that waits and of one that runs. */
  lemma AttemptsCountSends(s: State)
    requires Reachable(s)
    ensures forall i :: 0 <= i < |s.queue| ==>
      s.queue[i].attempts == s.queue[i].retries == |SentTo(s.sends, s.queue[i].id)| <= 1
    ensures forall k :: 0 <= k < |s.slots| && s.slots[k].active.Some? ==>
      var job := s.slots[k].active.value.job;
      job.attempts == job.retries + 1 == |SentTo(s.sends, job.id)| <= 2
  {
    ReachableIsValid(s);
  }

  /** The queue is a prefix of crashed jobs followed by the jobs never started, which are the last ones
      submitted, in submission order; the jobs before those were first started in submission order. */
  lemma FirstStartsFollowSubmission(s: State) returns (waiting: nat)
    requires Reachable(s)
    ensures waiting <= |s.queue| && |s.queue| - waiting <= s.nextId
    ensures forall i :: 0 <= i < waiting ==> s.queue[i].retries == 1
    ensures forall i :: waiting <= i < |s.queue| ==>
        s.queue[i].retries == 0 && s.queue[i].id == s.nextId - |s.queue| + i
    ensures FirstSends(s.sends) == Iota(s.nextId - (|s.queue| - waiting))
  {
    ReachableIsValid(s);
    waiting := Waiting(s.queue);
  }

  /** Waiting retries and running first attempts together never outnumber the slots. */
  lemma RetriesAreBounded(s: State)
    requires Reachable(s)
    ensures Waiting(s.queue) + FirstTries(s.slots) <= |s.slots|
  {
    ReachableIsValid(s);
  }

  // ---------------------------------------------------------------- what a step can change

  /** Records only grow, a settled shutdown promise stays as it is, and once shutdown was called no
      process is forked, no job is sent and the outstanding processes only become fewer. */
  ghost predicate Later(s: State, r: State) {
    && s.log <= r.log && s.sends <= r.sends && s.children.closed <= r.children.closed
    && s.nextId <= r.nextId && s.children.nextProc <= r.children.nextProc
    && |r.slots| == |s.slots|
    && (s.drain.settlements > 0 ==> r.drain.shutdown == s.drain.shutdown && r.drain.settlements == s.drain.settlements)
    && (s.drain.shuttingDown ==>
          r.drain.shuttingDown && r.children.nextProc == s.children.nextProc && r.sends == s.sends &&
            r.children.outstanding.Keys <= s.children.outstanding.Keys)
  }

  lemma LaterTransitive(a: State, b: State, c: State)
    requires Later(a, b) && Later(b, c)
    ensures Later(a, c)
  {
  }

  lemma DispatchOnceExtends(s: State, k: nat)
    requires s.queue != [] && k < |s.slots|
    ensures s.log <= DispatchOnce(s, k).log && s.sends <= DispatchOnce(s, k).sends
  {
  }

  lemma {:induction false} DispatchLoopExtends(s: State)
    ensures s.log <= DispatchLoop(s).log && s.sends <= DispatchLoop(s).sends
    decreases |s.queue|
  {
    var k := FirstIdle(s.slots, 0);
    if s.queue != [] && k < |s.slots| {
      DispatchOnceExtends(s, k);
      DispatchLoopExtends(DispatchOnce(s, k));
    }
  }

  /** No process was forked and none changed its slot. */
  ghost predicate SameHands(s: State, r: State) {
    && r.children.nextProc == s.children.nextProc
    && |r.slots| == |s.slots|
    && r.children.outstanding.Keys <= s.children.outstanding.Keys
    && forall j :: 0 <= j < |s.slots| ==> r.slots[j].proc == s.slots[j].proc
  }

  lemma DispatchLater(s: State)
    ensures Later(s, Dispatch(s)) && SameHands(s, Dispatch(s))
  {
    DispatchLoopExtends(s);
    DispatchLoopFrame(s);
  }

  /** An event that takes a process out of service, told from the state before it. */
  ghost predicate Retires(s: State, e: Event)
    requires Possible(s, e)
  {
    && !s.drain.shuttingDown
    && match e
       case Failure(k, p) => s.slots[k].proc == p && (s.slots[k].active.Some? || s.slots[k].ready)
       case Reply(k, p, answer) =>
         && s.slots[k].proc == p && s.slots[k].active.Some? && s.slots[k].active.value.job.id == answer.id
         && Judge(s, p, s.slots[k].active.value.job, answer).1
       case TimerFires(t) => t in s.timers
       case _ => false
  }

  ghost function RetiredSlot(s: State, e: Event): nat
    requires Possible(s, e) && Retires(s, e)
  {
    match e
    case Failure(k, p) => k
    case Reply(k, p, answer) => k
    case TimerFires(t) => s.timers[t].slot
  }

  /** Slot k changed hands: the one new process serves it, its predecessor has no handlers left and is
      still accounted for, and no other slot changed its process. */
  ghost predicate ChangesHands(s: State, r: State, k: nat) {
    && k < |s.slots| == |r.slots|
    && r.children.nextProc == s.children.nextProc + 1
    && r.slots[k] == Slot(s.children.nextProc, false, false, None)
    && s.slots[k].proc !in r.children.attached && s.children.nextProc in r.children.attached
    && r.children.outstanding.Keys == s.children.outstanding.Keys + {s.children.nextProc}
    && forall j :: 0 <= j < |s.slots| && j != k ==> r.slots[j] == s.slots[j]
  }

  lemma ReplacedChangesHands(s: State, k: nat)
    requires HandlersInRange(s) && k < |s.slots| && s.slots[k].proc < s.children.nextProc
    ensures var ideal := Replace(Detach(s, s.slots[k].proc), k); ChangesHands(s, ideal, k)
  {
    var ideal := Replace(Detach(s, s.slots[k].proc), k);
    assert ideal.children.outstanding.Keys == s.children.outstanding.Keys + {s.children.nextProc};
  }

  lemma RespawnChangesHands(s: State, k: nat, kills: Kills)
    requires !s.drain.shuttingDown && HandlersInRange(s) && k < |s.slots| && s.slots[k].proc < s.children.nextProc
    ensures var r := Respawn(s, k, kills);
      ChangesHands(s, r, k) && Later(s, r) && r.queue == s.queue && !r.drain.shuttingDown
  {
    RespawnReplaces(s, k, kills);
    ReplacedChangesHands(s, k);
  }

  /** Only slot k, and not its process, differs. */
  ghost predicate OnlySlot(s: State, q: State, k: nat) {
    && k < |s.slots| == |q.slots|
    && q.children.nextProc == s.children.nextProc && q.children.outstanding == s.children.outstanding &&
        q.children.attached == s.children.attached
    && q.drain.shuttingDown == s.drain.shuttingDown
    && q.slots[k].proc == s.slots[k].proc
    && forall j :: 0 <= j < |s.slots| && j != k ==> q.slots[j] == s.slots[j]
  }

  lemma HandsChain(s: State, q: State, r: State, k: nat)
    requires OnlySlot(s, q, k) && ChangesHands(q, r, k)
    ensures ChangesHands(s, r, k)
  {
  }

  lemma FinishOnlySlot(s: State, k: nat, outcome: Outcome, ready: bool)
    requires k < |s.slots| && s.slots[k].active.Some?
    ensures var q := Finish(s, k, outcome, ready);
      OnlySlot(s, q, k) && Later(s, q) && SameHands(s, q) && q.queue == s.queue
  {
  }

  lemma RequeueOnlySlot(s: State, k: nat)
    requires k < |s.slots| && s.slots[k].active.Some?
    ensures var q := Requeue(s, k); OnlySlot(s, q, k) && Later(s, q) && SameHands(s, q) && q.queue != []
  {
  }

  lemma InterruptedOnlySlot(s: State, k: nat)
    requires k < |s.slots|
    ensures OnlySlot(s, Interrupted(s, k), k) && Later(s, Interrupted(s, k)) && SameHands(s, Interrupted(s, k))
    ensures Interrupted(s, k).queue == s.queue ||
      (s.slots[k].active.Some? && s.slots[k].active.value.job.retries < MAX_WORKER_CRASH_RETRIES &&
        Interrupted(s, k).queue != [])
  {
    var slot := s.slots[k];
    if slot.active.Some? {
      if slot.active.value.job.retries < MAX_WORKER_CRASH_RETRIES {
        RequeueOnlySlot(s, k);
      } else {
        FinishOnlySlot(s, k, CrashedTwice, false);
      }
    }
  }

  /** What an event does to the processes. */
  ghost predicate ForksAsTold(s: State, r: State, e: Event)
    requires Possible(s, e)
  {
    if Retires(s, e) then ChangesHands(s, r, RetiredSlot(s, e)) else SameHands(s, r)
  }

  lemma FailureForks(s: State, k: nat, p: ProcId, kills: Kills)
    requires Basic(s) && Possible(s, Failure(k, p))
    ensures ForksAsTold(s, OnFailure(s, k, p, kills), Failure(k, p)) && Later(s, OnFailure(s, k, p, kills))
  {
    if !s.drain.shuttingDown && s.slots[k].proc == p {
      FailureUnfolds(s, k, p, kills);
      InterruptedOnlySlot(s, k);
      if s.slots[k].active.Some? || s.slots[k].ready {
        var q := Interrupted(s, k);
        RespawnChangesHands(q, k, kills);
        HandsChain(s, q, Respawn(q, k, kills), k);
        LaterTransitive(s, q, Respawn(q, k, kills));
      }
    }
  }

  lemma ReplyForks(s: State, k: nat, p: ProcId, answer: Answer, kills: Kills)
    requires Basic(s) && Possible(s, Reply(k, p, answer))
    ensures ForksAsTold(s, OnAnswer(s, k, p, answer, kills), Reply(k, p, answer)) &&
        Later(s, OnAnswer(s, k, p, answer, kills))
  {
    var slot := s.slots[k];
    if !s.drain.shuttingDown && slot.proc == p && Runs(slot, answer.id) {
      var (outcome, recycle) := Judge(s, p, slot.active.value.job, answer);
      var q := Finish(s, k, outcome, slot.ready);
      ReplyUnfolds(s, k, p, answer, kills);
      FinishOnlySlot(s, k, outcome, slot.ready);
      RecycleOrDispatch(s, q, k, kills);
    }
  }

  lemma RecycleOrDispatch(s: State, q: State, k: nat, kills: Kills)
    requires OnlySlot(s, q, k) && Later(s, q) && SameHands(s, q) && !s.drain.shuttingDown
    requires HandlersInRange(q) && s.slots[k].proc < s.children.nextProc
    ensures ChangesHands(s, Respawn(q, k, kills), k) && Later(s, Respawn(q, k, kills))
    ensures SameHands(s, Dispatch(q)) && Later(s, Dispatch(q))
  {
    RespawnChangesHands(q, k, kills);
    HandsChain(s, q, Respawn(q, k, kills), k);
    LaterTransitive(s, q, Respawn(q, k, kills));
    DispatchLater(q);
    LaterTransitive(s, q, Dispatch(q));
  }

  /** An expired timer changes what finishing its job and replacing its process would. */
  lemma TimerHands(s: State, t: TimerId, kills: Kills)
    requires Valid(s) && HandlersInRange(s) && t in s.timers && s.timers[t].slot < |s.slots| && !s.drain.shuttingDown
    ensures var r := OnTimer(s, t, kills);
      ChangesHands(s, r, s.timers[t].slot) && Later(s, r) && r.queue == s.queue && !r.drain.shuttingDown
  {
    TimerKeeps(s, t, kills);
    TimerFindsItsJob(s, t);
    var k := s.timers[t].slot;
    var q := Finish(s, k, TimedOut, false);
    FinishOnlySlot(s, k, TimedOut, false);
    ReplaceChangesHands(s, q, OnTimer(s, t, kills), k);
  }

  lemma ReplaceChangesHands(s: State, q: State, r: State, k: nat)
    requires OnlySlot(s, q, k) && Later(s, q) && !s.drain.shuttingDown && s.slots[k].proc < s.children.nextProc
    requires OnlySignals(Replace(Detach(q, s.slots[k].proc), k), r)
    ensures ChangesHands(s, r, k) && Later(s, r) && r.queue == q.queue && !r.drain.shuttingDown
  {
    var ideal := Replace(Detach(q, s.slots[k].proc), k);
    assert ideal.children.outstanding.Keys == s.children.outstanding.Keys + {s.children.nextProc};
  }

  lemma TimerForks(s: State, t: TimerId, kills: Kills)
    requires Valid(s) && Possible(s, TimerFires(t))
    ensures ForksAsTold(s, OnTimer(s, t, kills), TimerFires(t)) && Later(s, OnTimer(s, t, kills))
  {
    if t in s.timers && !s.drain.shuttingDown {
      TimerHands(s, t, kills);
    } else if t in s.timers {
      LateTimerHands(s, t, kills);
    }
  }

  /** During shutdown an expired timer only settles its job. */
  lemma LateTimerHands(s: State, t: TimerId, kills: Kills)
    requires Valid(s) && HandlersInRange(s) && t in s.timers && s.timers[t].slot < |s.slots| && s.drain.shuttingDown
    ensures SameHands(s, OnTimer(s, t, kills)) && Later(s, OnTimer(s, t, kills))
  {
    TimerKeeps(s, t, kills);
    TimerFindsItsJob(s, t);
    FinishOnlySlot(s, s.timers[t].slot, TimedOut, false);
  }

  lemma ShutdownForks(s: State, timeoutOk: bool, kills: Kills)
    requires Valid(s) && Possible(s, RequestShutdown(timeoutOk))
    ensures ForksAsTold(s, OnShutdown(s, timeoutOk, kills), RequestShutdown(timeoutOk))
    ensures Later(s, OnShutdown(s, timeoutOk, kills))
  {
    ShutdownKeeps(s, timeoutOk, kills);
  }

  /** An event forks exactly one process when it retires one, even if the kill emits an error on the way,
      and no process otherwise. */
  lemma EachRetirementForksOne(s: State, i: Input)
    requires Reachable(s) && Possible(s, i.event)
    ensures ForksAsTold(s, Step(s, i), i.event)
    ensures Later(s, Step(s, i))
  {
    ReachableIsValid(s);
    StepForks(s, i);
  }

  lemma StepForks(s: State, i: Input)
    requires Valid(s) && Possible(s, i.event)
    ensures ForksAsTold(s, Step(s, i), i.event) && Later(s, Step(s, i))
  {
    ValidIsBasic(s);
    match i.event {
      case Submit(execute, prepared) => if Accepts(s, execute, prepared) { DispatchLater(Enqueued(s, prepared)); }
      case Ready(k, p) => ReadyForks(s, k, p);
      case Reply(k, p, answer) => ReplyForks(s, k, p, answer, i.kills);
      case Failure(k, p) => FailureForks(s, k, p, i.kills);
      case _ => OtherStepForks(s, i);
    }
  }

  lemma FinishShutdownForks(s: State)
    ensures SameHands(s, FinishShutdown(s)) && FinishShutdown(s).log == s.log && FinishShutdown(s).sends == s.sends
    ensures FinishShutdown(s).nextId == s.nextId && FinishShutdown(s).children.closed == s.children.closed
    ensures FinishShutdown(s).drain.shuttingDown == s.drain.shuttingDown
    ensures !s.drain.shutdownArmed ==> FinishShutdown(s) == s
  {
  }

  lemma CloseForks(s: State, p: ProcId)
    requires Valid(s)
    ensures SameHands(s, OnClose(s, p)) && Later(s, OnClose(s, p))
  {
    if p in s.children.outstanding {
      FinishShutdownForks(Closed(s, p));
    }
  }

  lemma OtherStepForks(s: State, i: Input)
    requires Valid(s) && Possible(s, i.event)
    requires i.event.TimerFires? || i.event.Close? || i.event.RequestShutdown? || i.event.ShutdownExpires?
    ensures ForksAsTold(s, Step(s, i), i.event) && Later(s, Step(s, i))
  {
    match i.event {
      case TimerFires(t) => TimerForks(s, t, i.kills);
      case Close(p) => CloseForks(s, p);
      case RequestShutdown(timeoutOk) => ShutdownForks(s, timeoutOk, i.kills);
      case ShutdownExpires =>
    }
  }

  lemma ReadyForks(s: State, k: nat, p: ProcId)
    requires k < |s.slots|
    ensures SameHands(s, OnReady(s, k, p)) && Later(s, OnReady(s, k, p))
  {
    var marked := s.(slots := s.slots[k := s.slots[k].(ready := true)]);
    DispatchLater(marked);
    LaterTransitive(s, marked, Dispatch(marked));
  }

  /** Over any continuation of a run: results and sends are never taken back, a settled shutdown promise
      is never settled again, and after shutdown was called no process is forked and no job is sent. */
  lemma {:induction false} RunsOnlyExtend(s: State, inputs: seq<Input>)
    requires Valid(s)
    ensures Later(s, Run(s, inputs))
    decreases |inputs|
  {
    if inputs != [] {
      var last := |inputs| - 1;
      RunsOnlyExtend(s, inputs[..last]);
      var before := Run(s, inputs[..last]);
      RunKeeps(s, inputs[..last]);
      if Possible(before, inputs[last].event) {
        StepForks(before, inputs[last]);
        LaterTransitive(s, before, Step(before, inputs[last]));
      }
    }
  }

  // ---------------------------------------------------------------- shutdown

  /** The shutdown promise resolves only when every process ever forked has closed, and it is settled
      at most once. While it is pending some process is still open. */
  lemma ShutdownAwaitsEveryProcess(s: State)
    requires Reachable(s)
    ensures s.drain.shutdown == Drained ==> forall p: ProcId :: p < s.children.nextProc ==> p in s.children.closed
    ensures s.drain.shutdown == Draining ==> exists p: ProcId :: p < s.children.nextProc && p !in s.children.closed
    ensures s.drain.settlements <= 1
    ensures s.drain.settlements == 1 <==> s.drain.shutdown in {Drained, Expired, BadTimeout}
  {
    ReachableIsValid(s);
    if s.drain.shutdown == Draining {
      assert s.children.outstanding.Keys != {};
      var p :| p in s.children.outstanding.Keys;
      assert p < s.children.nextProc && p !in s.children.closed;
    }
    if s.drain.shutdown == Drained {
      forall p: ProcId | p < s.children.nextProc ensures p in s.children.closed {
        assert p !in s.children.outstanding;
      }
    }
  }

  ghost predicate Asked(s: State, p: ProcId) {
    p in s.children.outstanding ==> p in s.children.killed || s.children.outstanding[p] != []
  }

  lemma SignalChildAsks(s: State, p: ProcId, kills: Kills)
    requires HandlersInRange(s) && s.drain.shuttingDown
    ensures var next := SignalChild(s, p, SigTerm, kills);
      HandlersInRange(next) && next.drain.shuttingDown && forall q: ProcId :: Asked(s, q) || q == p ==> Asked(next, q)
  {
    SignalIsBookkeeping(s, p, SigTerm, kills);
  }

  lemma {:induction false} SignalAllAsks(s: State, p: ProcId, bound: nat, kills: Kills)
    requires HandlersInRange(s) && s.drain.shuttingDown
    requires forall q: ProcId :: q < p ==> Asked(s, q)
    ensures forall q: ProcId :: q < p || q < bound ==> Asked(SignalAll(s, p, bound, kills), q)
    decreases bound - p
  {
    if p < bound {
      if Unsignalled(s, p) {
        SignalChildAsks(s, p, kills);
        SignalAllAsks(SignalChild(s, p, SigTerm, kills), p + 1, bound, kills);
      } else {
        SignalAllAsks(s, p + 1, bound, kills);
      }
    }
  }

  lemma OpenOnesExist(s: State, timeoutOk: bool, kills: Kills)
    requires Valid(s) && HandlersInRange(s) && s.drain.shutdown == NotRequested
    ensures forall p: ProcId :: p in OnShutdown(s, timeoutOk, kills).children.outstanding ==> p < s.children.nextProc
  {
    ShutdownKeeps(s, timeoutOk, kills);
  }

  /** The first call of shutdown leaves no open process without a signal, whatever its argument. */
  lemma ShutdownSignalsEveryProcess(s: State, timeoutOk: bool, kills: Kills)
    requires Reachable(s) && s.drain.shutdown == NotRequested
    ensures HandlersInRange(s)
    ensures forall p: ProcId :: Asked(OnShutdown(s, timeoutOk, kills), p)
  {
    ReachableIsValid(s);
    OpenOnesExist(s, timeoutOk, kills);
    SignalAllAsks(Closing(s, timeoutOk), 0, s.children.nextProc, kills);
  }

  // ---------------------------------------------------------------- wake-ups

  /** If a job waits beside an idle slot, some slot is not ready. */
  lemma WaitingJobsAwaitAReplacement(s: State)
    requires Reachable(s)
    ensures Stuck(s) ==> exists k :: 0 <= k < |s.slots| && !s.slots[k].ready
  {
    ReachableIsValid(s);
  }

  /** Accepted submissions, ready messages and answers that do not recycle the worker leave no job
      waiting beside an idle slot, whatever the state was before. */
  lemma DispatchingEventsServe(s: State, i: Input)
    requires Reachable(s) && Possible(s, i.event) && !Retires(s, i.event)
    requires match i.event
             case Submit(execute, prepared) => Accepts(s, execute, prepared)
             case Ready(k, p) => s.slots[k].proc == p
             case Reply(k, p, answer) => s.slots[k].proc == p && Runs(s.slots[k], answer.id)
             case _ => false
    ensures !Stuck(Step(s, i))
  {
    ReachableIsValid(s);
    ValidIsBasic(s);
    match i.event {
      case Submit(execute, prepared) => DispatchServes(Enqueued(s, prepared));
      case Ready(k, p) => DispatchServes(s.(slots := s.slots[k := s.slots[k].(ready := true)]));
      case Reply(k, p, answer) => AnswerServes(s, k, p, answer, i.kills);
    }
  }

  lemma AnswerServes(s: State, k: nat, p: ProcId, answer: Answer, kills: Kills)
    requires Basic(s) && Possible(s, Reply(k, p, answer)) && !Retires(s, Reply(k, p, answer))
    requires s.slots[k].proc == p && Runs(s.slots[k], answer.id)
    ensures !Stuck(OnAnswer(s, k, p, answer, kills))
  {
    if !s.drain.shuttingDown {
      ReplyUnfolds(s, k, p, answer, kills);
      var outcome := Judge(s, p, s.slots[k].active.value.job, answer).0;
      DispatchServes(Finish(s, k, outcome, s.slots[k].ready));
    }
  }

  /** The crash of a worker whose job will be retried, while another slot is idle. */
  ghost predicate CrashBesideIdle(s: State, e: Event) {
    && e.Failure? && !s.drain.shuttingDown
    && e.slot < |s.slots| && s.slots[e.slot].proc == e.proc && s.slots[e.slot].active.Some?
    && s.slots[e.slot].active.value.job.retries < MAX_WORKER_CRASH_RETRIES
    && exists j :: 0 <= j < |s.slots| && j != e.slot && Idle(s.slots[j])
  }

  lemma StuckAfterRetirement(s: State, r: State, k: nat)
    requires ChangesHands(s, r, k) && !r.drain.shuttingDown
    ensures Stuck(r) <==> r.queue != [] && exists j :: 0 <= j < |s.slots| && j != k && Idle(s.slots[j])
  {
    assert !Idle(r.slots[k]);
  }

  lemma FailureWakes(s: State, k: nat, p: ProcId, kills: Kills)
    requires Basic(s) && Possible(s, Failure(k, p)) && !Stuck(s)
    ensures Stuck(OnFailure(s, k, p, kills)) <==> CrashBesideIdle(s, Failure(k, p))
  {
    if !s.drain.shuttingDown && s.slots[k].proc == p {
      var q := Interrupted(s, k);
      FailureUnfolds(s, k, p, kills);
      InterruptedOnlySlot(s, k);
      if s.slots[k].active.Some? || s.slots[k].ready {
        var r := Respawn(q, k, kills);
        RespawnChangesHands(q, k, kills);
        HandsChain(s, q, r, k);
        StuckAfterRetirement(s, r, k);
      }
    }
  }

  lemma ReplyWakes(s: State, k: nat, p: ProcId, answer: Answer, kills: Kills)
    requires Basic(s) && Possible(s, Reply(k, p, answer)) && !Stuck(s)
    ensures !Stuck(OnAnswer(s, k, p, answer, kills))
  {
    var slot := s.slots[k];
    if !s.drain.shuttingDown && slot.proc == p && Runs(slot, answer.id) {
      var (outcome, recycle) := Judge(s, p, slot.active.value.job, answer);
      if recycle {
        var q := Finish(s, k, outcome, slot.ready);
        ReplyUnfolds(s, k, p, answer, kills);
        FinishOnlySlot(s, k, outcome, slot.ready);
        RespawnChangesHands(q, k, kills);
        StuckAfterRetirement(q, Respawn(q, k, kills), k);
      } else {
        AnswerServes(s, k, p, answer, kills);
      }
    }
  }

  lemma TimerWakes(s: State, t: TimerId, kills: Kills)
    requires Valid(s) && Possible(s, TimerFires(t)) && !Stuck(s)
    ensures !Stuck(OnTimer(s, t, kills))
  {
    if t in s.timers && !s.drain.shuttingDown {
      TimerHands(s, t, kills);
      StuckAfterRetirement(s, OnTimer(s, t, kills), s.timers[t].slot);
    } else if t in s.timers {
      TimerKeeps(s, t, kills);
    }
  }

  /** Exactly one kind of event loses a wake-up, that is, leaves a job waiting beside an idle slot where
      none was waiting so before: the one handler that queues a job without calling dispatch. */
  lemma WakeUpLostExactlyByACrashBesideAnIdleSlot(s: State, i: Input)
    requires Reachable(s) && Possible(s, i.event) && !Stuck(s)
    ensures Stuck(Step(s, i)) <==> CrashBesideIdle(s, i.event)
  {
    ReachableIsValid(s);
    ValidIsBasic(s);
    match i.event {
      case Submit(execute, prepared) => DispatchServes(Enqueued(s, prepared));
      case Ready(k, p) => DispatchServes(s.(slots := s.slots[k := s.slots[k].(ready := true)]));
      case Reply(k, p, answer) => ReplyWakes(s, k, p, answer, i.kills);
      case Failure(k, p) => FailureWakes(s, k, p, i.kills);
      case _ => OtherStepsWake(s, i);
    }
  }

  lemma OtherStepsWake(s: State, i: Input)
    requires Valid(s) && Possible(s, i.event) && !Stuck(s)
    requires i.event.TimerFires? || i.event.Close? || i.event.RequestShutdown? || i.event.ShutdownExpires?
    ensures !Stuck(Step(s, i))
  {
    match i.event {
      case TimerFires(t) => TimerWakes(s, t, i.kills);
      case Close(p) =>
      case RequestShutdown(timeoutOk) => ShutdownKeeps(s, timeoutOk, i.kills);
      case ShutdownExpires =>
    }
  }
}
