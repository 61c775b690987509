/** What each event does to the whole state of a pool, told without the handlers. */
module PoolEffects {
  import opened Options
  import opened PoolModel
  import opened PoolInvariant
  import opened PoolSteps
  import opened PoolTheorems

  // ---------------------------------------------------------------- handing out jobs

  /** The first idle slots: as many as there are waiting jobs, or all of them. */
  ghost predicate FirstIdleSlots(slots: seq<Slot>, waiting: nat, ks: seq<nat>) {
    && |ks| <= waiting
    && (forall i :: 0 <= i < |ks| ==> ks[i] < |slots| && slots[ks[i]].ready && !slots[ks[i]].busy)
    && (forall i, j :: 0 <= i < j < |ks| ==> ks[i] < ks[j])
    && (forall k: nat :: k < |slots| && slots[k].ready && !slots[k].busy && k !in ks ==>
          |ks| == waiting && forall i :: 0 <= i < |ks| ==> ks[i] < k)
  }

  lemma AfterFirstIdle(slots: seq<Slot>, k: nat, taken: Slot, ks: seq<nat>)
    requires k < |slots| && k == FirstIdle(slots, 0) && taken.busy
    requires forall i :: 0 <= i < |ks| ==> ks[i] < |slots| && Idle(slots[k := taken][ks[i]])
    ensures forall i :: 0 <= i < |ks| ==> k < ks[i] && Idle(slots[ks[i]])
  {
    forall i | 0 <= i < |ks| ensures k < ks[i] && Idle(slots[ks[i]]) {
      assert ks[i] != k;
    }
  }

  lemma FirstIdleSlotsNext(slots: seq<Slot>, k: nat, taken: Slot, waiting: nat, ks: seq<nat>)
    requires k < |slots| && k == FirstIdle(slots, 0) && taken.busy && waiting > 0
    requires FirstIdleSlots(slots[k := taken], waiting - 1, ks)
    ensures FirstIdleSlots(slots, waiting, [k] + ks)
  {
    var rest, all := slots[k := taken], [k] + ks;
    AfterFirstIdle(slots, k, taken, ks);
    assert forall i :: 0 < i < |all| ==> all[i] == ks[i - 1];
    forall j: nat | j < |slots| && slots[j].ready && !slots[j].busy && j !in all
      ensures |all| == waiting && forall i :: 0 <= i < |all| ==> all[i] < j
    {
      assert k in all && forall i :: 0 <= i < |ks| ==> ks[i] == all[i + 1];
      assert j != k && j !in ks && rest[j] == slots[j];
    }
  }

  /** The slots ks have taken the first jobs of the queue, in order, each with one more attempt and a timer of its
      own. */
  ghost predicate Taken(s: State, r: State, ks: seq<nat>) {
    && |ks| <= |s.queue| && |r.slots| == |s.slots|
    && (forall i :: 0 <= i < |ks| ==> ks[i] < |s.slots|)
    && (forall i :: 0 <= i < |ks| ==>
          r.slots[ks[i]] == s.slots[ks[i]].(
            busy := true,
            active := Some(Active(s.queue[i].(attempts := s.queue[i].attempts + 1), s.nextTimer + i))))
    && (forall k: nat :: k < |s.slots| && k !in ks ==> r.slots[k] == s.slots[k])
  }

  /** Those jobs were sent, in order, to the processes of the slots. */
  ghost predicate SentOut(s: State, r: State, ks: seq<nat>) {
    && |ks| <= |s.queue|
    && (forall i :: 0 <= i < |ks| ==> ks[i] < |s.slots|)
    && |r.sends| == |s.sends| + |ks| && r.sends[..|s.sends|] == s.sends
    && forall i :: 0 <= i < |ks| ==> r.sends[|s.sends| + i] == Send(s.queue[i].id, s.slots[ks[i]].proc)
  }

  /** The first jobs of the queue went to the first idle slots, until either ran out; besides them only the records of
      running jobs have changed. */
  ghost predicate HandsOut(s: State, r: State, ks: seq<nat>) {
    && FirstIdleSlots(s.slots, |s.queue|, ks) && Taken(s, r, ks) && SentOut(s, r, ks)
    && r == s.(slots := r.slots, queue := s.queue[|ks|..], sends := r.sends, nextTimer := s.nextTimer + |ks|,
               timers := r.timers, pending := r.pending)
  }

  lemma NothingToHandOut(s: State)
    requires s.queue == [] || FirstIdle(s.slots, 0) == |s.slots|
    ensures HandsOut(s, s, [])
  {
    assert s.queue[0..] == s.queue;
  }

  lemma TakenNext(s: State, k: nat, r: State, ks: seq<nat>)
    requires s.queue != [] && k < |s.slots| && k !in ks && Taken(Start(s, k), r, ks)
    ensures Taken(s, r, [k] + ks)
  {
    var next, all := Start(s, k), [k] + ks;
    assert r.slots[k] == next.slots[k];
    forall i | 0 <= i < |all| ensures all[i] < |s.slots| && r.slots[all[i]] == s.slots[all[i]].(
        busy := true, active := Some(Active(s.queue[i].(attempts := s.queue[i].attempts + 1), s.nextTimer + i)))
    {
      if i > 0 {
        assert ks[i - 1] in ks && next.slots[ks[i - 1]] == s.slots[ks[i - 1]] && next.queue[i - 1] == s.queue[i];
      }
    }
    forall j: nat | j < |s.slots| && j !in all ensures r.slots[j] == s.slots[j] {
      assert k in all && forall i :: 0 <= i < |ks| ==> ks[i] == all[i + 1];
      assert j != k && j !in ks;
    }
  }

  lemma SentOutNext(s: State, k: nat, r: State, ks: seq<nat>)
    requires s.queue != [] && k < |s.slots| && SentOut(Start(s, k), r, ks)
    ensures SentOut(s, r, [k] + ks)
  {
    var next, all, n := Start(s, k), [k] + ks, |s.sends|;
    assert r.sends[..n + 1] == next.sends;
    assert r.sends[..n] == next.sends[..n] == s.sends;
    forall i | 0 <= i < |all|
      ensures all[i] < |s.slots| && r.sends[n + i] == Send(s.queue[i].id, s.slots[all[i]].proc)
    {
      if i == 0 {
        assert r.sends[n] == r.sends[..n + 1][n];
      } else {
        assert next.queue[i - 1] == s.queue[i] && next.slots[ks[i - 1]].proc == s.slots[ks[i - 1]].proc;
        assert r.sends[n + 1 + (i - 1)] == Send(next.queue[i - 1].id, next.slots[ks[i - 1]].proc);
      }
    }
  }

  lemma HandsOutNext(s: State, k: nat, r: State, ks: seq<nat>)
    requires s.queue != [] && k < |s.slots| && k == FirstIdle(s.slots, 0) && HandsOut(Start(s, k), r, ks)
    ensures HandsOut(s, r, [k] + ks)
  {
    var next := Start(s, k);
    FirstIdleSlotsNext(s.slots, k, next.slots[k], |s.queue|, ks);
    assert next.slots[k].busy && k !in ks;
    TakenNext(s, k, r, ks);
    SentOutNext(s, k, r, ks);
    assert s.queue[1..][|ks|..] == s.queue[|ks| + 1..];
  }

  /** Dispatch refuses no job of a consistent pool, so it hands out jobs until slots or jobs run out. */
  lemma {:induction false} DispatchHandsOut(s: State) returns (ks: seq<nat>)
    requires Consistent(s, |s.slots|)
    ensures HandsOut(s, DispatchLoop(s), ks)
    decreases |s.queue|
  {
    var k := FirstIdle(s.slots, 0);
    if s.queue == [] || k == |s.slots| {
      NothingToHandOut(s);
      ks := [];
    } else {
      NeverRefuses(s, k);
      StartKeeps(s, k);
      var rest := DispatchHandsOut(Start(s, k));
      HandsOutNext(s, k, DispatchLoop(s), rest);
      ks := [k] + rest;
    }
  }

  // ---------------------------------------------------------------- retirement

  /** The processes after process p of slot k was asked to end as requested and replaced; killed says that a kill call
      got through. */
  ghost function Succeeded(c: Children, k: nat, p: ProcId, requests: seq<SignalRequest>, killed: bool): Children {
    c.(nextProc := c.nextProc + 1,
       preparedChildren := if c.builtin then c.preparedChildren + {c.nextProc} else c.preparedChildren,
       outstanding := WithRequests(c.outstanding, p, requests)[c.nextProc := []],
       attached := (c.attached - {p})[c.nextProc := k],
       killed := if killed then c.killed + {p} else c.killed)
  }

  ghost function WithRequests(outstanding: map<ProcId, seq<SignalRequest>>, p: ProcId, requests: seq<SignalRequest>):
      map<ProcId, seq<SignalRequest>>
  {
    if p in outstanding && requests != [] then outstanding[p := outstanding[p] + requests] else outstanding
  }

  /** Slot k has a new process that is not ready yet, and the old one was asked to end as requested. */
  ghost predicate Retirement(s: State, r: State, k: nat, requests: seq<SignalRequest>, killed: bool) {
    && k < |s.slots|
    && r == s.(slots := s.slots[k := Slot(s.children.nextProc, false, false, None)],
               children := Succeeded(s.children, k, s.slots[k].proc, requests, killed))
  }

  /** A retirement asks the old process to end with SIGTERM, unless a kill call has got through to it before. */
  lemma RespawnTold(s: State, k: nat, p: ProcId, kills: Kills)
    requires !s.drain.shuttingDown && HandlersInRange(s) && k < |s.slots| && p == s.slots[k].proc
    ensures var sent := kills(p, SigTerm).sent;
      if p in s.children.killed then Retirement(s, Respawn(s, k, kills), k, [], false)
      else Retirement(s, Respawn(s, k, kills), k, [SignalRequest(SigTerm, sent)], sent)
  {
    if p !in s.children.killed {
      SignalIsBookkeeping(Detach(s, p), p, SigTerm, kills);
    }
  }

  // ---------------------------------------------------------------- the events of a job

  /** The state after the job of slot k was settled. */
  ghost function Settled(s: State, k: nat, outcome: Outcome): State
    requires k < |s.slots| && s.slots[k].active.Some?
  {
    var Active(job, timer) := s.slots[k].active.value;
    s.(slots := s.slots[k := s.slots[k].(busy := false, active := None)],
       timers := s.timers - {timer}, pending := s.pending - {job.id},
       log := s.log + [Resolution(job.id, job.attempts, outcome)])
  }

  /** The state after an answer settled its job, before the process is retired or jobs are handed out. */
  lemma AnswerSettles(s: State, k: nat, p: ProcId, answer: Answer, kills: Kills, outcome: Outcome)
    requires Valid(s) && HandlersInRange(s) && k < |s.slots| && !s.drain.shuttingDown && s.slots[k].proc == p
    requires s.slots[k].active.Some? && s.slots[k].active.value.job.id == answer.id
    requires outcome == if !s.slots[k].active.value.job.prepared || answer.valid then Answered(p) else Invalid(p)
    ensures var settled := Settled(s, k, outcome);
      && OnAnswer(s, k, p, answer, kills) ==
         (if answer.recycle then Respawn(settled, k, kills) else DispatchLoop(settled))
      && Consistent(settled, |s.slots|)
  {
    ValidIsBasic(s);
    ReplyUnfolds(s, k, p, answer, kills);
    PreparedRunsOnBuiltin(s, k);
    DeliveredKeeps(s, k, outcome, s.slots[k].ready);
    assert Settled(s, k, outcome) == Finish(s, k, outcome, s.slots[k].ready);
  }

  /** An answer from the process of a slot to the slot's own job settles that job at once: as the worker's answer, or as
      an invalid one if the job is prepared and the answer fails validation. The process is retired if the answer asks
      for it; otherwise it stays, and waiting jobs are handed out. */
  lemma AnswerTold(s: State, k: nat, p: ProcId, answer: Answer, kills: Kills) returns (ks: seq<nat>)
    requires Valid(s) && k < |s.slots| && !s.drain.shuttingDown && s.slots[k].proc == p
    requires s.slots[k].active.Some? && s.slots[k].active.value.job.id == answer.id
    ensures Possible(s, Reply(k, p, answer))
    ensures
      var prepared := s.slots[k].active.value.job.prepared;
      var settled := Settled(s, k, if !prepared || answer.valid then Answered(p) else Invalid(p));
      var r, sent := Step(s, Input(Reply(k, p, answer), kills)), kills(p, SigTerm).sent;
      if !answer.recycle then HandsOut(settled, r, ks)
      else if p in s.children.killed then Retirement(settled, r, k, [], false)
      else Retirement(settled, r, k, [SignalRequest(SigTerm, sent)], sent)
  {
    ValidIsPossible(s, Reply(k, p, answer));
    var outcome := if !s.slots[k].active.value.job.prepared || answer.valid then Answered(p) else Invalid(p);
    ks := [];
    if answer.recycle {
      AnswerRetires(s, k, p, answer, kills, outcome, Settled(s, k, outcome));
    } else {
      ks := AnswerHandsOut(s, k, p, answer, kills, outcome, Settled(s, k, outcome));
    }
  }

  lemma AnswerRetires(s: State, k: nat, p: ProcId, answer: Answer, kills: Kills, outcome: Outcome, settled: State)
    requires Valid(s) && HandlersInRange(s) && k < |s.slots| && !s.drain.shuttingDown && s.slots[k].proc == p
    requires s.slots[k].active.Some? && s.slots[k].active.value.job.id == answer.id && answer.recycle
    requires outcome == if !s.slots[k].active.value.job.prepared || answer.valid then Answered(p) else Invalid(p)
    requires settled == Settled(s, k, outcome)
    ensures var r, sent := OnAnswer(s, k, p, answer, kills), kills(p, SigTerm).sent;
      if p in s.children.killed then Retirement(settled, r, k, [], false)
      else Retirement(settled, r, k, [SignalRequest(SigTerm, sent)], sent)
  {
    AnswerSettles(s, k, p, answer, kills, outcome);
    RespawnTold(settled, k, p, kills);
  }

  lemma AnswerHandsOut(s: State, k: nat, p: ProcId, answer: Answer, kills: Kills, outcome: Outcome, settled: State)
    returns (ks: seq<nat>)
    requires Valid(s) && HandlersInRange(s) && k < |s.slots| && !s.drain.shuttingDown && s.slots[k].proc == p
    requires s.slots[k].active.Some? && s.slots[k].active.value.job.id == answer.id && !answer.recycle
    requires outcome == if !s.slots[k].active.value.job.prepared || answer.valid then Answered(p) else Invalid(p)
    requires settled == Settled(s, k, outcome)
    ensures HandsOut(settled, OnAnswer(s, k, p, answer, kills), ks)
  {
    AnswerSettles(s, k, p, answer, kills, outcome);
    ks := DispatchHandsOut(settled);
  }

  lemma PreparedRunsOnBuiltin(s: State, k: nat)
    requires ProcessesOk(s) && k < |s.slots| && s.slots[k].active.Some?
    ensures s.slots[k].active.value.job.prepared ==> s.slots[k].proc in s.children.preparedChildren
  {
  }

  /** What a handing out and a retirement mean for the results and for the process of slot k. */
  lemma Kept(s: State, r: State, k: nat, ks: seq<nat>)
    requires HandsOut(s, r, ks) && k < |s.slots|
    ensures r.log == s.log && |r.slots| == |s.slots| && r.slots[k].proc == s.slots[k].proc
    ensures r.children.nextProc == s.children.nextProc
  {
    if k in ks {
      var i :| 0 <= i < |ks| && ks[i] == k;
    }
  }

  lemma Replaced(s: State, r: State, k: nat, requests: seq<SignalRequest>, killed: bool)
    requires Retirement(s, r, k, requests, killed)
    ensures r.log == s.log && |r.slots| == |s.slots| && r.slots[k].proc == s.children.nextProc
    ensures r.children.nextProc == s.children.nextProc + 1
  {
  }

  /** In short, for any reachable pool: one result is added, it is the worker's own answer or an invalid one, and a
      process is forked, to take over the slot, if and only if the answer asks for that. */
  lemma AnswersAreDelivered(s: State, k: nat, p: ProcId, answer: Answer, kills: Kills)
    requires Reachable(s) && k < |s.slots| && !s.drain.shuttingDown && s.slots[k].proc == p
    requires s.slots[k].active.Some? && s.slots[k].active.value.job.id == answer.id
    ensures Possible(s, Reply(k, p, answer))
    ensures
      var job, r := s.slots[k].active.value.job, Step(s, Input(Reply(k, p, answer), kills));
      && |r.slots| == |s.slots|
      && r.log == s.log + [
           Resolution(answer.id, job.attempts, if !job.prepared || answer.valid then Answered(p) else Invalid(p))]
      && r.slots[k].proc == (if answer.recycle then s.children.nextProc else p)
      && r.children.nextProc == s.children.nextProc + (if answer.recycle then 1 else 0)
  {
    ReachableIsValid(s);
    AnswerInShort(s, k, p, answer, kills);
  }

  lemma AnswerInShort(s: State, k: nat, p: ProcId, answer: Answer, kills: Kills)
    requires Valid(s) && k < |s.slots| && !s.drain.shuttingDown && s.slots[k].proc == p
    requires s.slots[k].active.Some? && s.slots[k].active.value.job.id == answer.id
    ensures Possible(s, Reply(k, p, answer))
    ensures
      var job, r := s.slots[k].active.value.job, Step(s, Input(Reply(k, p, answer), kills));
      && |r.slots| == |s.slots|
      && r.log == s.log + [
           Resolution(answer.id, job.attempts, if !job.prepared || answer.valid then Answered(p) else Invalid(p))]
      && r.slots[k].proc == (if answer.recycle then s.children.nextProc else p)
      && r.children.nextProc == s.children.nextProc + (if answer.recycle then 1 else 0)
  {
    ValidIsPossible(s, Reply(k, p, answer));
    var outcome := if !s.slots[k].active.value.job.prepared || answer.valid then Answered(p) else Invalid(p);
    AnswerForks(s, k, p, answer, kills, outcome, Settled(s, k, outcome));
  }

  lemma AnswerForks(s: State, k: nat, p: ProcId, answer: Answer, kills: Kills, outcome: Outcome, settled: State)
    requires Valid(s) && HandlersInRange(s) && k < |s.slots| && !s.drain.shuttingDown && s.slots[k].proc == p
    requires s.slots[k].active.Some? && s.slots[k].active.value.job.id == answer.id
    requires outcome == if !s.slots[k].active.value.job.prepared || answer.valid then Answered(p) else Invalid(p)
    requires settled == Settled(s, k, outcome)
    ensures var r := OnAnswer(s, k, p, answer, kills);
      && |r.slots| == |s.slots| && r.log == settled.log
      && r.slots[k].proc == (if answer.recycle then s.children.nextProc else p)
      && r.children.nextProc == s.children.nextProc + (if answer.recycle then 1 else 0)
  {
    var r, sent := OnAnswer(s, k, p, answer, kills), kills(p, SigTerm).sent;
    if answer.recycle {
      AnswerRetires(s, k, p, answer, kills, outcome, settled);
      if p in s.children.killed {
        Replaced(settled, r, k, [], false);
      } else {
        Replaced(settled, r, k, [SignalRequest(SigTerm, sent)], sent);
      }
    } else {
      var ks := AnswerHandsOut(s, k, p, answer, kills, outcome, settled);
      Kept(settled, r, k, ks);
    }
  }

  /** Any other answer is dropped. */
  lemma AnswerIgnored(s: State, k: nat, p: ProcId, answer: Answer, kills: Kills)
    requires Valid(s) && k < |s.slots|
    requires s.drain.shuttingDown || s.slots[k].proc != p || s.slots[k].active.None? ||
      s.slots[k].active.value.job.id != answer.id
    ensures Possible(s, Reply(k, p, answer)) && Step(s, Input(Reply(k, p, answer), kills)) == s
  {
    ValidIsPossible(s, Reply(k, p, answer));
    ReplyDropped(s, k, p, answer, kills);
  }

  /** The state after the job of slot k was put back at the front of the queue. */
  ghost function PutBack(s: State, k: nat): State
    requires k < |s.slots| && s.slots[k].active.Some?
  {
    var Active(job, timer) := s.slots[k].active.value;
    s.(slots := s.slots[k := s.slots[k].(busy := false, ready := false, active := None)],
       timers := s.timers - {timer}, pending := s.pending - {job.id},
       queue := [job.(retries := 1)] + s.queue)
  }

  /** A failure of the process of a slot: a job that never failed before goes back to the front of the queue, one that
      did is settled as crashed twice, and either way, or when the slot was idle, the process is replaced. A process
      that fails before it was ready is not. A failure of any other process, or during shutdown, changes nothing. */
  lemma FailureTold(s: State, k: nat, p: ProcId, kills: Kills)
    requires Valid(s) && k < |s.slots|
    ensures Possible(s, Failure(k, p))
    ensures
      var slot, r, sent := s.slots[k], Step(s, Input(Failure(k, p), kills)), kills(p, SigTerm).sent;
      if s.drain.shuttingDown || slot.proc != p || (slot.active.None? && !slot.ready) then r == s
      else
        var left :=
          if slot.active.None? then s
          else if slot.active.value.job.retries == 0 then PutBack(s, k) else Settled(s, k, CrashedTwice);
        if p in s.children.killed then Retirement(left, r, k, [], false)
        else Retirement(left, r, k, [SignalRequest(SigTerm, sent)], sent)
  {
    ValidIsPossible(s, Failure(k, p));
    var slot := s.slots[k];
    if !s.drain.shuttingDown && slot.proc == p {
      FailureUnfolds(s, k, p, kills);
      if slot.active.None? && !slot.ready {
        assert s.slots[k := slot.(busy := false, ready := false)] == s.slots;
      } else {
        RespawnTold(Interrupted(s, k), k, p, kills);
        InterruptedTold(s, k, Slot(s.children.nextProc, false, false, None));
      }
    }
  }

  /** Only the slot that is about to be replaced tells Interrupted from what is said of it. */
  lemma InterruptedTold(s: State, k: nat, x: Slot)
    requires Valid(s) && k < |s.slots|
    ensures
      var left :=
        if s.slots[k].active.None? then s
        else if s.slots[k].active.value.job.retries == 0 then PutBack(s, k) else Settled(s, k, CrashedTwice);
      && Interrupted(s, k) == left.(slots := Interrupted(s, k).slots)
      && |Interrupted(s, k).slots| == |s.slots| && Interrupted(s, k).slots[k].proc == left.slots[k].proc
      && Interrupted(s, k).slots[k := x] == left.slots[k := x]
  {
  }

  lemma TwoRequests(outstanding: map<ProcId, seq<SignalRequest>>, p: ProcId, a: SignalRequest, b: SignalRequest)
    ensures WithRequests(WithRequests(outstanding, p, [a]), p, [b]) == WithRequests(outstanding, p, [a, b])
  {
    if p in outstanding { assert outstanding[p] + [a] + [b] == outstanding[p] + [a, b]; }
  }

  /** The job and the process of a live timer. */
  lemma TimerKills(s: State, t: TimerId, k: nat, p: ProcId, kills: Kills)
    requires Valid(s) && HandlersInRange(s) && t in s.timers && k == s.timers[t].slot < |s.slots|
    requires p == s.slots[k].proc
    ensures s.slots[k].active == Some(Active(s.timers[t].job, t))
    ensures OnTimer(s, t, kills) == Respawn(TimedOutAndKilled(s, k, p, kills(p, SigKill).sent), k, kills)
  {
    TimerFindsItsJob(s, t);
    ExpireSettles(s, t, k);
    ExpiredIsKilled(s, Expire(s, t), k, p, kills);
  }

  lemma ExpiredIsKilled(s: State, expired: State, k: nat, p: ProcId, kills: Kills)
    requires HandlersInRange(s) && CurrentOk(s.slots, s.children.attached, s.children.nextProc) && k < |s.slots|
    requires s.slots[k].active.Some? && p == s.slots[k].proc
    requires var left := Settled(s, k, TimedOut);
      expired == left.(slots := left.slots[k := left.slots[k].(ready := false)])
    ensures HandlersInRange(expired)
    ensures SignalChild(expired, p, SigKill, kills) == TimedOutAndKilled(s, k, p, kills(p, SigKill).sent)
  {
    SignalIsBookkeeping(expired, p, SigKill, kills);
  }

  lemma ExpireSettles(s: State, t: TimerId, k: nat)
    requires t in s.timers && k == s.timers[t].slot < |s.slots| && s.slots[k].active == Some(Active(s.timers[t].job, t))
    ensures var left := Settled(s, k, TimedOut);
      Expire(s, t) == left.(slots := left.slots[k := left.slots[k].(ready := false)])
  {
    var left := Settled(s, k, TimedOut);
    assert Expire(s, t).slots == left.slots[k := left.slots[k].(ready := false)];
  }

  /** The state after the job of slot k was settled as timed out and its process was asked to end with SIGKILL. */
  ghost function TimedOutAndKilled(s: State, k: nat, p: ProcId, sent: bool): (r: State)
    requires k < |s.slots| && s.slots[k].active.Some?
    ensures HandlersInRange(s) ==> HandlersInRange(r)
  {
    var left := Settled(s, k, TimedOut);
    left.(
      slots := left.slots[k := left.slots[k].(ready := false)],
      children := left.children.(
        outstanding := WithRequests(left.children.outstanding, p, [SignalRequest(SigKill, sent)]),
        killed := if sent then left.children.killed + {p} else left.children.killed))
  }

  /** Before shutdown the process is replaced, after a SIGTERM as well if no kill call has got through to it. */
  lemma TimerReplaces(s: State, k: nat, p: ProcId, kills: Kills)
    requires HandlersInRange(s) && k < |s.slots| && s.slots[k].active.Some? && p == s.slots[k].proc
    requires !s.drain.shuttingDown
    ensures
      var hard, soft := kills(p, SigKill).sent, kills(p, SigTerm).sent;
      var r := Respawn(TimedOutAndKilled(s, k, p, hard), k, kills);
      if p in s.children.killed || hard then
        Retirement(Settled(s, k, TimedOut), r, k, [SignalRequest(SigKill, hard)], hard)
      else
        Retirement(Settled(s, k, TimedOut), r, k, [SignalRequest(SigKill, false), SignalRequest(SigTerm, soft)], soft)
  {
    RespawnTold(TimedOutAndKilled(s, k, p, kills(p, SigKill).sent), k, p, kills);
    TwoRequests(s.children.outstanding, p, SignalRequest(SigKill, kills(p, SigKill).sent),
      SignalRequest(SigTerm, kills(p, SigTerm).sent));
  }

  /** The callback of a live timer settles its job as timed out, asks its process to end with SIGKILL, and before
      shutdown replaces the process, with a SIGTERM as well if no kill call has got through to it. */
  lemma TimerTold(s: State, t: TimerId, kills: Kills)
    requires Valid(s)
    ensures Possible(s, TimerFires(t))
    ensures
      var r := Step(s, Input(TimerFires(t), kills));
      if t !in s.timers then r == s
      else
        var k := s.timers[t].slot;
        var p := s.slots[k].proc;
        var hard, soft := kills(p, SigKill).sent, kills(p, SigTerm).sent;
        && s.slots[k].active == Some(Active(s.timers[t].job, t))
        && if s.drain.shuttingDown then r == TimedOutAndKilled(s, k, p, hard)
           else if p in s.children.killed || hard then
             Retirement(Settled(s, k, TimedOut), r, k, [SignalRequest(SigKill, hard)], hard)
           else
             Retirement(
               Settled(s, k, TimedOut), r, k, [SignalRequest(SigKill, false), SignalRequest(SigTerm, soft)], soft)
  {
    ValidIsPossible(s, TimerFires(t));
    if t in s.timers {
      var k, p := s.timers[t].slot, s.slots[s.timers[t].slot].proc;
      TimerKills(s, t, k, p, kills);
      if s.drain.shuttingDown {
        assert OnTimer(s, t, kills) == TimedOutAndKilled(s, k, p, kills(p, SigKill).sent);
      } else {
        TimerReplaces(s, k, p, kills);
      }
    }
  }

  // ---------------------------------------------------------------- the other events

  /** A ready message of the process of a slot makes the slot ready, and waiting jobs are handed out. */
  lemma ReadyTold(s: State, k: nat, p: ProcId, kills: Kills) returns (ks: seq<nat>)
    requires Valid(s) && k < |s.slots|
    ensures Possible(s, Ready(k, p))
    ensures
      var r := Step(s, Input(Ready(k, p), kills));
      if s.drain.shuttingDown || s.slots[k].proc != p then r == s
      else HandsOut(s.(slots := s.slots[k := s.slots[k].(ready := true)]), r, ks)
  {
    ValidIsPossible(s, Ready(k, p));
    ks := [];
    if !s.drain.shuttingDown && s.slots[k].proc == p {
      ReadyFlagKeeps(s, k, true);
      ks := DispatchHandsOut(s.(slots := s.slots[k := s.slots[k].(ready := true)]));
    }
  }

  /** A request without preparation is accepted, a prepared compilation by a pool of builtin workers, and a prepared
      test by a pool of unified ones: the job gets the next id and the last place in the queue, and unless the pool is
      being shut down waiting jobs are handed out. Any other request changes nothing. */
  lemma SubmitTold(s: State, execute: bool, prepared: bool, kills: Kills) returns (ks: seq<nat>)
    requires Valid(s)
    ensures Possible(s, Submit(execute, prepared))
    ensures
      var r := Step(s, Input(Submit(execute, prepared), kills));
      var queued := s.(queue := s.queue + [Job(s.nextId, prepared, 0, 0)], nextId := s.nextId + 1);
      if prepared && (if execute then !s.children.unified else !s.children.builtin) then r == s
      else if s.drain.shuttingDown then r == queued
      else HandsOut(queued, r, ks)
  {
    ValidIsPossible(s, Submit(execute, prepared));
    ks := [];
    if !prepared || (if execute then s.children.unified else s.children.builtin) {
      ks := AcceptedHandsOut(
        s, execute, prepared, s.(queue := s.queue + [Job(s.nextId, prepared, 0, 0)], nextId := s.nextId + 1));
    }
  }

  lemma AcceptedHandsOut(s: State, execute: bool, prepared: bool, queued: State) returns (ks: seq<nat>)
    requires Valid(s) && Accepts(s, execute, prepared) && queued == Enqueued(s, prepared)
    ensures s.drain.shuttingDown ==> OnSubmit(s, execute, prepared) == queued
    ensures !s.drain.shuttingDown ==> HandsOut(queued, OnSubmit(s, execute, prepared), ks)
  {
    SubmitAccepted(s, execute, prepared, queued);
    ks := QueuedHandsOut(s, prepared, queued);
  }

  lemma SubmitAccepted(s: State, execute: bool, prepared: bool, queued: State)
    requires Accepts(s, execute, prepared) && queued == Enqueued(s, prepared)
    ensures OnSubmit(s, execute, prepared) == if s.drain.shuttingDown then queued else DispatchLoop(queued)
  {
  }

  lemma QueuedHandsOut(s: State, prepared: bool, queued: State) returns (ks: seq<nat>)
    requires Valid(s) && (prepared ==> s.children.builtin) && queued == Enqueued(s, prepared)
    ensures HandsOut(queued, DispatchLoop(queued), ks)
  {
    EnqueuedKeeps(s, prepared);
    ks := DispatchHandsOut(queued);
  }

  /** A process that closes is no longer outstanding and has no handlers left; when it was the last one of a pool that
      waits for that, the shutdown promise resolves. */
  lemma CloseTold(s: State, p: ProcId, kills: Kills)
    requires Valid(s)
    ensures Possible(s, Close(p))
    ensures
      var r, c := Step(s, Input(Close(p), kills)), s.children;
      if p !in c.outstanding then r == s
      else
        r == s.(
          children := c.(outstanding := c.outstanding - {p}, closed := c.closed + {p}, attached := c.attached - {p}),
          drain := if s.drain.shutdown == Draining && c.outstanding.Keys == {p}
                   then Drain(true, Drained, 1, false, false) else s.drain)
  {
    ValidIsPossible(s, Close(p));
    if p in s.children.outstanding {
      var rest := s.children.outstanding - {p};
      assert rest == map[] <==> rest.Keys == {};
      assert rest.Keys == s.children.outstanding.Keys - {p};
    }
  }

  /** No kill call has reached the open process p. */
  ghost predicate Unreached(c: Children, p: ProcId) {
    && p in c.outstanding && p !in c.killed
    && forall i :: 0 <= i < |c.outstanding[p]| ==> !c.outstanding[p][i].sent
  }

  /** Each open process from p on that no kill call has reached was asked to end with SIGTERM; nothing else changed. */
  ghost predicate AllAsked(s: State, r: State, p: ProcId, kills: Kills) {
    && r == s.(children := s.children.(outstanding := r.children.outstanding, killed := r.children.killed))
    && r.children.outstanding.Keys == s.children.outstanding.Keys
    && (forall q: ProcId :: q in s.children.outstanding ==>
          r.children.outstanding[q] ==
            if q >= p && Unreached(s.children, q)
            then s.children.outstanding[q] + [SignalRequest(SigTerm, kills(q, SigTerm).sent)]
            else s.children.outstanding[q])
    && (forall q: ProcId :: q in r.children.killed <==>
          q in s.children.killed || (q >= p && Unreached(s.children, q) && kills(q, SigTerm).sent))
  }

  /** The state after process p alone was asked. */
  ghost function AskedOne(s: State, p: ProcId, sent: bool): State
    requires p in s.children.outstanding
  {
    var c := s.children;
    s.(children := c.(
         outstanding := c.outstanding[p := c.outstanding[p] + [SignalRequest(SigTerm, sent)]],
         killed := if sent then c.killed + {p} else c.killed))
  }

  lemma OneAsked(s: State, p: ProcId, kills: Kills)
    requires HandlersInRange(s) && s.drain.shuttingDown && p in s.children.outstanding
    ensures SignalChild(s, p, SigTerm, kills) == AskedOne(s, p, kills(p, SigTerm).sent)
  {
    SignalIsBookkeeping(s, p, SigTerm, kills);
  }

  lemma AskedThenOthers(s: State, r: State, p: ProcId, kills: Kills)
    requires Unreached(s.children, p) && AllAsked(AskedOne(s, p, kills(p, SigTerm).sent), r, p + 1, kills)
    ensures AllAsked(s, r, p, kills)
  {
    var next := AskedOne(s, p, kills(p, SigTerm).sent);
    assert next.children.outstanding.Keys == s.children.outstanding.Keys;
    forall q: ProcId | q != p ensures Unreached(next.children, q) <==> Unreached(s.children, q) {
      assert q in s.children.outstanding ==> next.children.outstanding[q] == s.children.outstanding[q];
    }
  }

  lemma PassedOverThenOthers(s: State, r: State, p: ProcId, kills: Kills)
    requires !Unreached(s.children, p) && AllAsked(s, r, p + 1, kills)
    ensures AllAsked(s, r, p, kills)
  {
  }

  lemma {:induction false} SignalAllTold(s: State, p: ProcId, bound: nat, kills: Kills)
    requires HandlersInRange(s) && s.drain.shuttingDown
    requires forall q: ProcId :: q in s.children.outstanding ==> q < bound
    ensures AllAsked(s, SignalAll(s, p, bound, kills), p, kills)
    decreases bound - p
  {
    if p < bound {
      if Unsignalled(s, p) {
        OneAsked(s, p, kills);
        SignalAllTold(SignalChild(s, p, SigTerm, kills), p + 1, bound, kills);
        AskedThenOthers(s, SignalAll(s, p, bound, kills), p, kills);
      } else {
        SignalAllTold(s, p + 1, bound, kills);
        PassedOverThenOthers(s, SignalAll(s, p, bound, kills), p, kills);
      }
    }
  }

  /** The first call of shutdown settles its promise at once if its argument is out of range or no process is open, and
      asks every open process that no kill call has reached to end; later calls change nothing. */
  lemma ShutdownTold(s: State, timeoutOk: bool, kills: Kills)
    requires Valid(s)
    ensures Possible(s, RequestShutdown(timeoutOk))
    ensures
      var r := Step(s, Input(RequestShutdown(timeoutOk), kills));
      if s.drain.shutdown != NotRequested then r == s
      else
        AllAsked(
          s.(drain :=
            if !timeoutOk then Drain(true, BadTimeout, 1, false, false)
            else if s.children.outstanding == map[] then Drain(true, Drained, 1, false, false)
            else Drain(true, Draining, 0, true, true)),
          r, 0, kills)
  {
    ValidIsPossible(s, RequestShutdown(timeoutOk));
    if s.drain.shutdown == NotRequested {
      SignalAllTold(Closing(s, timeoutOk), 0, s.children.nextProc, kills);
    }
  }

  /** The shutdown timer rejects a promise that is still pending. */
  lemma ShutdownExpiryTold(s: State, kills: Kills)
    requires Valid(s)
    ensures Possible(s, ShutdownExpires)
    ensures Step(s, Input(ShutdownExpires, kills)) ==
      if s.drain.shutdown == Draining then s.(drain := Drain(true, Expired, 1, false, false)) else s
  {
    ValidIsPossible(s, ShutdownExpires);
  }

  // ---------------------------------------------------------------- the first state

  /** One process for each slot, none of them ready, and nothing else has happened. */
  ghost predicate Untouched(s: State, size: nat, builtin: bool, unified: bool) {
    && |s.slots| == size && (forall k: nat :: k < size ==> s.slots[k] == Slot(k, false, false, None))
    && (forall p: ProcId :: p in s.children.outstanding <==> p < size)
    && (forall p: ProcId :: p in s.children.outstanding ==> s.children.outstanding[p] == [])
    && (forall p: ProcId :: p in s.children.attached <==> p < size)
    && (forall p: ProcId :: p in s.children.attached ==> s.children.attached[p] == p)
    && (forall p: ProcId :: p in s.children.preparedChildren <==> builtin && p < size)
    && s == State(s.slots, [], map[], 0, map[], 0, [], [],
                  Children(builtin, unified, s.children.preparedChildren, size, s.children.outstanding,
                           s.children.attached, {}, {}),
                  Drain(false, NotRequested, 0, false, false))
  }

  lemma GrownIsUntouched(s: State, size: nat, builtin: bool, unified: bool)
    requires Untouched(s, size, builtin, unified)
    ensures Untouched(Grown(s), size + 1, builtin, unified)
  {
  }

  lemma {:induction false} InitTold(size: nat, builtin: bool, unified: bool)
    ensures Untouched(Init(size, builtin, unified), size, builtin, unified)
  {
    if size > 0 {
      InitTold(size - 1, builtin, unified);
      GrownIsUntouched(Init(size - 1, builtin, unified), size - 1, builtin, unified);
    }
  }
}
