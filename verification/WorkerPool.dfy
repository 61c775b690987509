/** The worker pool as an object whose event handlers update it in place. View is the abstraction: each
    handler does to the object what the function of the same event in PoolModel does to the view. */
module WorkerPool {
  import opened Options
  import opened PoolModel

  /** One slot of the pool. */
  class ForkState {
    var proc: ProcId
    var busy: bool
    var ready: bool
    var active: Option<Active>

    constructor (proc: ProcId)
      ensures View() == Slot(proc, false, false, None)
    {
      this.proc, busy, ready, active := proc, false, false, None;
    }

    ghost function View(): Slot
      reads this
    {
      Slot(proc, busy, ready, active)
    }
  }

  class CompilerPool {
    const builtin: bool
    const unified: bool
    var forks: seq<ForkState>
    var queue: seq<Job>
    var pending: map<JobId, Active>
    var nextId: nat
    var timers: map<TimerId, Timer>
    var nextTimer: nat
    var preparedChildren: set<ProcId>
    var nextProc: nat
    var outstanding: map<ProcId, seq<SignalRequest>>
    var attached: map<ProcId, nat>
    var killed: set<ProcId>
    var shuttingDown: bool
    var shutdown: Shutdown
    var shutdownArmed: bool
    var shutdownTimer: bool
    ghost var settlements: nat
    ghost var sends: seq<Send>
    ghost var log: seq<Resolution>
    ghost var closed: set<ProcId>

    ghost function Slots(): (r: seq<Slot>)
      reads this, forks
      ensures |r| == |forks|
      ensures forall k :: 0 <= k < |forks| ==> r[k] == forks[k].View()
    {
      seq(|forks|, k requires 0 <= k < |forks| reads this, forks => forks[k].View())
    }

    ghost function View(): State
      reads this, forks
    {
      State(Slots(), queue, pending, nextId, timers, nextTimer, sends, log,
            Children(builtin, unified, preparedChildren, nextProc, outstanding, attached, killed, closed),
            Drain(shuttingDown, shutdown, settlements, shutdownArmed, shutdownTimer))
    }

    /** The slots are different objects, and handlers are bound to slots of this pool. */
    ghost predicate Valid()
      reads this, forks
    {
      && (forall j, k :: 0 <= j < k < |forks| ==> forks[j] != forks[k])
      && (forall p :: p in attached ==> attached[p] < |forks|)
      && (forall t :: t in timers ==> timers[t].slot < |forks|)
    }

    /** After an update of slot k alone. */
    twostate lemma SlotChanged(k: nat)
      requires old(Valid()) && forks == old(forks) && k < |forks|
      requires forall j :: 0 <= j < |forks| && j != k ==> unchanged(forks[j])
      ensures Slots() == old(Slots())[k := forks[k].View()]
    {
    }

    constructor (size: nat, builtin: bool, unified: bool)
      ensures Valid() && fresh(forks)
      ensures View() == Init(size, builtin, unified)
    {
      this.builtin, this.unified := builtin, unified;
      forks, queue, pending, nextId, timers, nextTimer := [], [], map[], 0, map[], 0;
      preparedChildren, nextProc, outstanding, attached, killed := {}, 0, map[], map[], {};
      shuttingDown, shutdown, shutdownArmed, shutdownTimer := false, NotRequested, false, false;
      settlements, sends, log, closed := 0, [], [], {};
      new;
      assert View() == NoSlots(builtin, unified);
      for i := 0 to size
        invariant Valid() && fresh(forks)
        invariant View() == Init(i, builtin, unified)
      {
        CreateFork();
      }
    }

    method CreateFork()
      requires Valid()
      modifies this
      ensures Valid() && fresh(set f | f in forks && f !in old(forks))
      ensures View() == Grown(old(View()))
    {
      var state := new ForkState(nextProc);
      var k := |forks|;
      var p := ForkProcess(k);
      forks := forks + [state];
      assert Slots() == old(Slots()) + [state.View()];
    }

    /** Fork a process and attach the job handlers that bind it to slot k. */
    method ForkProcess(k: nat) returns (p: ProcId)
      modifies this
      ensures forks == old(forks) && p == old(nextProc)
      ensures View() == Forked(old(View()), k)
    {
      p := nextProc;
      nextProc := p + 1;
      if builtin {
        preparedChildren := preparedChildren + {p};
      }
      outstanding := outstanding[p := []];
      attached := attached[p := k];
      assert Slots() == old(Slots());
    }

    // -------------------------------------------------------------- dispatch

    /** The index of the first slot that is ready and not busy, or |forks|. */
    method FindFree() returns (k: nat)
      ensures k == FirstIdle(Slots(), 0)
    {
      k := 0;
      while k < |forks| && !(forks[k].ready && !forks[k].busy)
        invariant k <= |forks|
        invariant FirstIdle(Slots(), 0) == FirstIdle(Slots(), k)
      {
        k := k + 1;
      }
    }

    method Settle(id: JobId, attempts: nat, outcome: Outcome)
      modifies this`log
      ensures log == old(log) + [Resolution(id, attempts, outcome)]
    {
      log := log + [Resolution(id, attempts, outcome)];
    }

    method Dispatch()
      requires Valid()
      modifies this, forks
      ensures Valid() && forks == old(forks)
      ensures View() == PoolModel.Dispatch(old(View()))
    {
      if shuttingDown {
        return;
      }
      while queue != []
        invariant Valid() && forks == old(forks)
        invariant DispatchLoop(View()) == DispatchLoop(old(View()))
        decreases |queue|
      {
        var k := FindFree();
        if k == |forks| {
          break;
        }
        ServeHead(k);
      }
      assert DispatchLoop(View()) == View();
    }

    /** Slot k is free for the head of the queue; a prepared job goes only to the builtin worker. */
    method ServeHead(k: nat)
      requires Valid() && queue != [] && k < |forks|
      modifies this, forks[k]
      ensures Valid() && forks == old(forks) && View() == DispatchOnce(old(View()), k)
    {
      var free := forks[k];
      var job := queue[0];
      queue := queue[1..];
      if job.prepared && free.proc !in preparedChildren {
        Settle(job.id, job.attempts, Refused);
        assert Slots() == old(Slots());
        return;
      }
      StartJob(k, job);
    }

    /** The job occupies slot k. */
    method Occupy(k: nat, active: Active)
      requires Valid() && k < |forks|
      modifies forks[k]
      ensures Valid()
      ensures View() ==
          old(View()).(slots := old(Slots())[k := old(forks[k].View()).(busy := true, active := Some(active))])
    {
      forks[k].busy, forks[k].active := true, Some(active);
      SlotChanged(k);
    }

    /** The timer, the pending entry and the message of a job that starts on slot k. */
    method Accept(k: nat, active: Active, proc: ProcId)
      requires Valid() && k < |forks|
      modifies this`timers, this`nextTimer, this`pending, this`sends
      ensures Valid()
      ensures View() == old(View()).(
        timers := old(timers)[old(nextTimer) := Timer(active.job, k)], nextTimer := old(nextTimer) + 1,
        pending := old(pending)[active.job.id := active], sends := old(sends) + [Send(active.job.id, proc)])
    {
      timers := timers[nextTimer := Timer(active.job, k)];
      nextTimer := nextTimer + 1;
      pending := pending[active.job.id := active];
      sends := sends + [Send(active.job.id, proc)];
      assert Slots() == old(Slots());
    }

    method StartJob(k: nat, queued: Job)
      requires Valid() && k < |forks|
      modifies this`timers, this`nextTimer, this`pending, this`sends, forks[k]
      ensures Valid()
      ensures View() == Start(old(View()).(queue := [queued] + queue), k)
    {
      var active := Active(queued.(attempts := queued.attempts + 1), nextTimer);
      var proc := forks[k].proc;
      Occupy(k, active);
      Accept(k, active, proc);
    }

    /** compile and runTest: returns the id of the queued job, or nothing when the request is thrown back. */
    method Submit(execute: bool, prepared: bool) returns (id: Option<JobId>)
      requires Valid()
      modifies this, forks
      ensures Valid() && forks == old(forks)
      ensures View() == OnSubmit(old(View()), execute, prepared)
      ensures id == if prepared && (if execute then !unified else !builtin) then None else Some(old(nextId))
    {
      if prepared && !(if execute then unified else builtin) {
        return None;
      }
      id := Some(nextId);
      queue := queue + [Job(nextId, prepared, 0, 0)];
      nextId := nextId + 1;
      assert Slots() == old(Slots());
      assert View() == Enqueued(old(View()), prepared);
      Dispatch();
    }

    // -------------------------------------------------------------- retiring a process

    method DetachJobHandlers(p: ProcId)
      requires Valid()
      modifies this`attached
      ensures Valid() && View() == Detach(old(View()), p)
    {
      attached := attached - {p};
      assert Slots() == old(Slots());
    }

    /** Put a record of a kill call into the lifetime of its process, if that is still open. */
    method RecordSignal(p: ProcId, signal: Signal, sent: bool)
      requires Valid()
      modifies this`outstanding
      ensures Valid() && View() == Requested(old(View()), p, SignalRequest(signal, sent))
    {
      if p in outstanding {
        outstanding := outstanding[p := outstanding[p] + [SignalRequest(signal, sent)]];
      }
      assert Slots() == old(Slots());
    }

    method MarkKilled(p: ProcId, sent: bool)
      requires Valid()
      modifies this`killed
      ensures Valid() && View() == PoolModel.MarkKilled(old(View()), p, sent)
    {
      if sent {
        killed := killed + {p};
      }
      assert Slots() == old(Slots());
    }

    /** signalChild. The error that kill may emit is handled before kill returns. */
    method SignalChild(p: ProcId, signal: Signal, kills: Kills)
      requires Valid()
      modifies this, forks
      ensures Valid() && forks == old(forks)
      ensures View() == PoolModel.SignalChild(old(View()), p, signal, kills)
      decreases if p in attached then |attached| else 0, if p in attached then 3 else 0
    {
      var kill := kills(p, signal);
      RecordSignal(p, signal, kill.sent);
      if kill.emitsError && p in attached {
        HandleForkFailure(attached[p], p, kills);
      }
      MarkKilled(p, kill.sent);
    }

    /** The job of slot k leaves it; the slot is not ready any more. */
    method TakeJob(k: nat) returns (job: Job)
      requires Valid() && k < |forks| && forks[k].active.Some?
      modifies this`timers, this`pending, forks[k]
      ensures Valid() && job == old(forks[k].active.value.job)
      ensures View() == old(View()).(
        slots := old(Slots())[k := old(forks[k].View()).(busy := false, ready := false, active := None)],
        timers := old(timers) - {old(forks[k].active.value.timer)}, pending := old(pending) - {job.id})
    {
      var state := forks[k];
      var active := state.active.value;
      job := active.job;
      state.active, state.busy, state.ready := None, false, false;
      timers := timers - {active.timer};
      pending := pending - {job.id};
      SlotChanged(k);
    }

    /** handleForkFailure, called by the error and exit listeners bound to process p and slot k. */
    method HandleForkFailure(k: nat, p: ProcId, kills: Kills)
      requires Valid() && k < |forks|
      modifies this, forks
      ensures Valid() && forks == old(forks)
      ensures View() == OnFailure(old(View()), k, p, kills)
      decreases |attached|, 2
    {
      var state := forks[k];
      if shuttingDown || state.proc != p {
        return;
      }
      if state.active.Some? {
        Interrupt(k);
        RespawnFork(k, kills);
      } else {
        var wasReady := state.ready;
        state.busy, state.ready := false, false;
        SlotChanged(k);
        if wasReady {
          RespawnFork(k, kills);
        }
      }
    }

    /** The job of the failed process is queued again at the front, or settled if it crashed before. */
    method Interrupt(k: nat)
      requires Valid() && k < |forks| && forks[k].active.Some?
      modifies this, forks[k]
      ensures Valid() && forks == old(forks) && attached == old(attached)
      ensures View() == if old(forks[k].active.value.job.retries) < MAX_WORKER_CRASH_RETRIES
                        then Requeue(old(View()), k) else Finish(old(View()), k, CrashedTwice, false)
    {
      var job := TakeJob(k);
      if job.retries < MAX_WORKER_CRASH_RETRIES {
        queue := [job.(retries := job.retries + 1)] + queue;
      } else {
        Settle(job.id, job.attempts, CrashedTwice);
      }
      SlotChanged(k);
    }

    /** respawnFork */
    method RespawnFork(k: nat, kills: Kills)
      requires Valid() && k < |forks|
      modifies this, forks
      ensures Valid() && forks == old(forks)
      ensures View() == Respawn(old(View()), k, kills)
      decreases |attached|, 1
    {
      if shuttingDown {
        return;
      }
      var retiring := forks[k].proc;
      DetachJobHandlers(retiring);
      if retiring !in killed {
        SignalChild(retiring, SigTerm, kills);
      }
      ReplaceProcess(k);
    }

    method ReplaceProcess(k: nat)
      requires Valid() && k < |forks|
      modifies this, forks[k]
      ensures Valid() && forks == old(forks)
      ensures View() == Replace(old(View()), k)
    {
      var state := forks[k];
      state.busy, state.ready, state.active := false, false, None;
      var p := ForkProcess(k);
      state.proc := p;
      SlotChanged(k);
    }

    // -------------------------------------------------------------- messages and timers

    /** The message listener bound to process p and slot k, for a ready message. */
    method OnReadyMessage(k: nat, p: ProcId)
      requires Valid() && k < |forks|
      modifies this, forks
      ensures Valid() && forks == old(forks)
      ensures View() == OnReady(old(View()), k, p)
    {
      var state := forks[k];
      if shuttingDown || state.proc != p {
        return;
      }
      state.ready := true;
      SlotChanged(k);
      Dispatch();
    }

    /** The same listener for an answer. */
    method OnAnswerMessage(k: nat, p: ProcId, answer: Answer, kills: Kills)
      requires Valid() && k < |forks|
      modifies this, forks
      ensures Valid() && forks == old(forks)
      ensures View() == OnAnswer(old(View()), k, p, answer, kills)
    {
      var state := forks[k];
      if shuttingDown || state.proc != p {
        return;
      }
      if state.active.None? || state.active.value.job.id != answer.id || answer.id !in pending {
        return;
      }
      var outcome, recycle := Answered(p), answer.recycle;
      if state.active.value.job.prepared {
        if p !in preparedChildren {
          outcome, recycle := Invalid(p), false;
        } else if !answer.valid {
          outcome := Invalid(p);
        }
      }
      Deliver(k, outcome);
      if recycle {
        RespawnFork(k, kills);
      } else {
        Dispatch();
      }
    }

    /** The job of slot k is settled; the slot can take the next one. */
    method Deliver(k: nat, outcome: Outcome)
      requires Valid() && k < |forks| && forks[k].active.Some?
      modifies this, forks[k]
      ensures Valid() && forks == old(forks)
      ensures View() == Finish(old(View()), k, outcome, old(forks[k].ready))
    {
      var ready := forks[k].ready;
      var job := TakeJob(k);
      forks[k].ready := ready;
      Settle(job.id, job.attempts, outcome);
      SlotChanged(k);
    }

    /** The callback of a job's timer. */
    method OnJobTimeout(t: TimerId, kills: Kills)
      requires Valid()
      modifies this, forks
      ensures Valid() && forks == old(forks)
      ensures View() == OnTimer(old(View()), t, kills)
    {
      if t in timers {
        var k := timers[t].slot;
        var p := forks[k].proc;
        ExpireJob(t);
        SignalChild(p, SigKill, kills);
        RespawnFork(k, kills);
      }
    }

    /** Slot k has no job and is not ready. */
    method Vacate(k: nat)
      requires Valid() && k < |forks|
      modifies forks[k]
      ensures Valid()
      ensures View() ==
          old(View()).(slots := old(Slots())[k := old(forks[k].View()).(busy := false, ready := false, active := None)])
    {
      forks[k].busy, forks[k].ready, forks[k].active := false, false, None;
      SlotChanged(k);
    }

    /** The timer and the pending entry of a job are removed. */
    method Forget(t: TimerId, id: JobId)
      requires Valid()
      modifies this`timers, this`pending
      ensures Valid() && View() == old(View()).(timers := old(timers) - {t}, pending := old(pending) - {id})
    {
      timers := timers - {t};
      pending := pending - {id};
      assert Slots() == old(Slots());
    }

    method ExpireJob(t: TimerId)
      requires Valid() && t in timers
      modifies this, forks[timers[t].slot]
      ensures Valid() && forks == old(forks) && attached == old(attached)
      ensures View() == Expire(old(View()), t)
    {
      var Timer(job, k) := timers[t];
      Forget(t, job.id);
      Settle(job.id, job.attempts, TimedOut);
      assert Slots() == old(Slots());
      Vacate(k);
    }

    // -------------------------------------------------------------- shutdown

    method FinishShutdownIfClosed()
      requires Valid()
      modifies this
      ensures Valid() && forks == old(forks)
      ensures View() == FinishShutdown(old(View()))
    {
      if outstanding == map[] && shutdownArmed {
        shutdownTimer, shutdownArmed := false, false;
        shutdown, settlements := Drained, settlements + 1;
      }
      assert Slots() == old(Slots());
    }

    /** The close listeners of process p. */
    method OnCloseEvent(p: ProcId)
      requires Valid()
      modifies this
      ensures Valid() && forks == old(forks)
      ensures View() == OnClose(old(View()), p)
    {
      if p !in outstanding {
        return;
      }
      outstanding := outstanding - {p};
      closed := closed + {p};
      assert Slots() == old(Slots());
      FinishShutdownIfClosed();
      DetachJobHandlers(p);
    }

    method RejectTimeout()
      requires Valid()
      modifies this`shuttingDown, this`shutdown, this`settlements
      ensures Valid() && View() == Closing(old(View()), false)
    {
      shuttingDown := true;
      shutdown, settlements := BadTimeout, settlements + 1;
      assert Slots() == old(Slots());
    }

    method StartDraining()
      requires Valid()
      modifies this`shuttingDown, this`shutdown, this`shutdownArmed
      ensures Valid() && outstanding == old(outstanding) && forks == old(forks)
      ensures View() ==
          old(View()).(drain := old(View()).drain.(shuttingDown := true, shutdown := Draining, shutdownArmed := true))
    {
      shuttingDown := true;
      shutdown, shutdownArmed := Draining, true;
      assert Slots() == old(Slots());
    }

    method StartShutdownTimer()
      requires Valid()
      modifies this`shutdownTimer
      ensures Valid() && View() == old(View()).(drain := old(View()).drain.(shutdownTimer := true))
    {
      shutdownTimer := true;
      assert Slots() == old(Slots());
    }

    /** The promise of shutdown is created, and its timer armed if a process is still open. */
    method ArmShutdown(timeoutOk: bool)
      requires Valid()
      modifies this
      ensures Valid() && forks == old(forks)
      ensures View() == Closing(old(View()), timeoutOk)
    {
      if !timeoutOk {
        RejectTimeout();
        return;
      }
      StartDraining();
      if outstanding == map[] {
        FinishShutdownIfClosed();
      } else {
        StartShutdownTimer();
      }
    }

    /** shutdown */
    method ShutDown(timeoutOk: bool, kills: Kills)
      requires Valid()
      modifies this, forks
      ensures Valid() && forks == old(forks)
      ensures View() == OnShutdown(old(View()), timeoutOk, kills)
    {
      if shutdown == NotRequested {
        var bound := nextProc;
        ArmShutdown(timeoutOk);
        SignalOutstanding(bound, kills);
      }
    }

    method SignalOutstanding(bound: nat, kills: Kills)
      requires Valid()
      modifies this, forks
      ensures Valid() && forks == old(forks)
      ensures View() == SignalAll(old(View()), 0, bound, kills)
    {
      var p := 0;
      while p < bound
        invariant Valid() && forks == old(forks)
        invariant SignalAll(View(), p, bound, kills) == SignalAll(old(View()), 0, bound, kills)
      {
        if p in outstanding && p !in killed && (forall i :: 0 <= i < |outstanding[p]| ==> !outstanding[p][i].sent) {
          SignalChild(p, SigTerm, kills);
        }
        p := p + 1;
      }
    }

    /** The callback of the shutdown timer. */
    method OnShutdownTimeout()
      requires Valid()
      modifies this
      ensures Valid() && forks == old(forks)
      ensures View() == OnShutdownTimer(old(View()))
    {
      if shutdownTimer {
        shutdownArmed, shutdownTimer := false, false;
        shutdown, settlements := Expired, settlements + 1;
      }
      assert Slots() == old(Slots());
    }

    // -------------------------------------------------------------- runs

    /** One event; a listener of a slot that the pool does not have cannot be called. */
    method Handle(i: Input)
      requires Valid()
      modifies this, forks
      ensures Valid() && forks == old(forks)
      ensures View() == if Possible(old(View()), i.event) then Step(old(View()), i) else old(View())
    {
      match i.event {
        case Submit(execute, prepared) => var id := Submit(execute, prepared);
        case Ready(k, p) => if k < |forks| { OnReadyMessage(k, p); }
        case Reply(k, p, answer) => if k < |forks| { OnAnswerMessage(k, p, answer, i.kills); }
        case Failure(k, p) => if k < |forks| { HandleForkFailure(k, p, i.kills); }
        case TimerFires(t) => OnJobTimeout(t, i.kills);
        case Close(p) => OnCloseEvent(p);
        case RequestShutdown(timeoutOk) => ShutDown(timeoutOk, i.kills);
        case ShutdownExpires => OnShutdownTimeout();
      }
    }
  }

  /** Any sequence of events, handled by a pool object, leaves it in the state the model computes. */
  method RunPool(size: nat, builtin: bool, unified: bool, inputs: seq<Input>) returns (pool: CompilerPool)
    ensures fresh(pool) && pool.Valid()
    ensures pool.View() == Run(Init(size, builtin, unified), inputs)
  {
    pool := new CompilerPool(size, builtin, unified);
    assert inputs[..0] == [];
    for n := 0 to |inputs|
      invariant fresh(pool) && fresh(pool.forks) && pool.Valid()
      invariant pool.View() == Run(Init(size, builtin, unified), inputs[..n])
    {
      pool.Handle(inputs[n]);
      assert inputs[..n + 1][..n] == inputs[..n];
    }
    assert inputs[..|inputs|] == inputs;
  }
}
