/** The loops that the SIMD benchmark emits as WebAssembly code, and what they compute. */
module SimdLoops {
  import opened Wasm

  // ---------------------------------------------------------------- the counting loop

  /** The test at the head of a counting loop: leave two labels when local i has reached n. */
  function Test(i: nat, n: u32): seq<Instr> {
    [LocalGet(i), I32Const(n), I32GeU, BrIf(1)]
  }

  /** The end of a counting loop: count, and start again. */
  function Count(i: nat): seq<Instr> {
    [LocalGet(i), I32Const(1), I32Add, LocalSet(i)]
  }

  /** The code of one turn. */
  function TurnCode(i: nat, n: u32, body: seq<Instr>): seq<Instr> {
    Test(i, n) + body + Count(i) + [Br(0)]
  }

  /** loopN: run body n times, with local i counting from 0. */
  function LoopN(i: nat, n: u32, body: seq<Instr>): seq<Instr> {
    [I32Const(0), LocalSet(i), Block([Loop(TurnCode(i, n, body))])]
  }

  function SetLocal(f: Frame, i: nat, x: u32): Frame {
    if i < |f.locals| then f.(locals := f.locals[i := x]) else f
  }

  /** The frame at the start of turn k, when body changes a frame as effect says. */
  ghost function Turn(effect: Frame -> Frame, i: nat, k: u32, f: Frame): Frame {
    if k == 0 then SetLocal(f, i, 0) else SetLocal(effect(Turn(effect, i, k - 1, f)), i, k)
  }

  lemma TestPasses(i: nat, n: u32, f: Frame)
    requires i < |f.locals| && f.locals[i] < n
    ensures Runs(Test(i, n), f, [], Done(f, []))
  {
    var x := f.locals[i];
    assert I32GeU.I32GeU?;
    RunsFour(LocalGet(i), I32Const(n), I32GeU, BrIf(1), Config(f, []), Config(f, [x]), Config(f, [x, n]),
      Config(f, [0]), Config(f, []));
  }

  lemma TestFails(i: nat, n: u32, f: Frame)
    requires i < |f.locals| && f.locals[i] >= n
    ensures Runs(Test(i, n), f, [], Branch(1, f))
  {
    var x := f.locals[i];
    var code := [LocalGet(i), I32Const(n), I32GeU];
    RunsThree(LocalGet(i), I32Const(n), I32GeU, Config(f, []), Config(f, [x]), Config(f, [x, n]), Config(f, [1]));
    RunsSimple(BrIf(1), f, [1]);
    RunsBoth(code, [BrIf(1)], f, [], f, [1], Branch(1, f));
    assert Test(i, n) == code + [BrIf(1)];
  }

  lemma AddsOne(f: Frame, x: u32, y: u32)
    requires y == (x + 1) % WORD
    ensures Leads(I32Add, Config(f, [x, 1]), Config(f, [y]))
  {
    assert [x, 1][..0] + [y] == [y];
  }

  lemma CountSteps(i: nat, f: Frame, x: u32, y: u32)
    requires i < |f.locals| && f.locals[i] == x
    ensures Leads(LocalGet(i), Config(f, []), Config(f, [x])) && Leads(I32Const(1), Config(f, [x]), Config(f, [x, 1]))
    ensures Leads(LocalSet(i), Config(f, [y]), Config(SetLocal(f, i, y), []))
  {
  }

  lemma CountRuns(i: nat, f: Frame)
    requires i < |f.locals|
    ensures Runs(Count(i), f, [], Done(SetLocal(f, i, (f.locals[i] + 1) % WORD), []))
  {
    var x, y := f.locals[i], (f.locals[i] + 1) % WORD;
    AddsOne(f, x, y);
    CountSteps(i, f, x, y);
    RunsFour(LocalGet(i), I32Const(1), I32Add, LocalSet(i),
             Config(f, []), Config(f, [x]), Config(f, [x, 1]), Config(f, [y]), Config(SetLocal(f, i, y), []));
  }

  /** A turn that ends regularly branches back with the counter one higher. */
  lemma TurnGoesOn(i: nat, n: u32, body: seq<Instr>, f: Frame, g: Frame)
    requires i < |f.locals| && f.locals[i] < n
    requires Runs(body, f, [], Done(g, [])) && i < |g.locals|
    ensures Runs(TurnCode(i, n, body), f, [], Branch(0, SetLocal(g, i, (g.locals[i] + 1) % WORD)))
  {
    var h := SetLocal(g, i, (g.locals[i] + 1) % WORD);
    TestPasses(i, n, f);
    RunsBoth(Test(i, n), body, f, [], f, [], Done(g, []));
    CountRuns(i, g);
    RunsBoth(Test(i, n) + body, Count(i), f, [], g, [], Done(h, []));
    RunsSimple(Br(0), h, []);
    RunsBoth(Test(i, n) + body + Count(i), [Br(0)], f, [], h, [], Branch(0, h));
  }

  lemma TurnEnds(i: nat, n: u32, body: seq<Instr>, f: Frame)
    requires i < |f.locals| && f.locals[i] >= n
    ensures Runs(TurnCode(i, n, body), f, [], Branch(1, f))
  {
    TestFails(i, n, f);
    RunsFirstPart(Test(i, n), body, f, [], Branch(1, f));
    RunsFirstPart(Test(i, n) + body, Count(i), f, [], Branch(1, f));
    RunsFirstPart(Test(i, n) + body + Count(i), [Br(0)], f, [], Branch(1, f));
  }

  /** In turn k the body ends regularly, leaves the stack as it was and the counter alone. */
  ghost predicate GoodTurn(effect: Frame -> Frame, i: nat, k: u32, body: seq<Instr>, f: Frame) {
    var g := Turn(effect, i, k, f);
    Runs(body, g, [], Done(effect(g), [])) && i < |effect(g).locals| && effect(g).locals[i] == k
  }

  lemma TurnCounts(effect: Frame -> Frame, i: nat, k: u32, f: Frame)
    requires i < |f.locals| && (k > 0 ==> i < |effect(Turn(effect, i, k - 1, f)).locals|)
    ensures var g := Turn(effect, i, k, f); i < |g.locals| && g.locals[i] == k
  {
  }

  /** From turn k on, the loop ends with a branch out of its block once the counter is n. */
  lemma {:induction false} LoopFrom(effect: Frame -> Frame, i: nat, n: u32, body: seq<Instr>, f: Frame, k: u32)
    requires k <= n && i < |f.locals|
    requires forall j: u32 :: j < n ==> GoodTurn(effect, i, j, body, f)
    ensures Runs([Loop(TurnCode(i, n, body))], Turn(effect, i, k, f), [], Branch(0, Turn(effect, i, n, f)))
    decreases n - k
  {
    var g := Turn(effect, i, k, f);
    if k > 0 { assert GoodTurn(effect, i, k - 1, body, f); }
    TurnCounts(effect, i, k, f);
    if k == n {
      TurnEnds(i, n, body, g);
      RunsLoopOnce(TurnCode(i, n, body), g, [], Branch(1, g));
    } else {
      assert GoodTurn(effect, i, k, body, f);
      TurnGoesOn(i, n, body, g, effect(g));
      assert Turn(effect, i, k + 1, f) == SetLocal(effect(g), i, k + 1);
      LoopFrom(effect, i, n, body, f, k + 1);
      RunsLoopAgain(TurnCode(i, n, body), g, [], Turn(effect, i, k + 1, f), Branch(0, Turn(effect, i, n, f)));
    }
  }

  lemma LoopStarts(i: nat, f: Frame, stack: seq<u32>)
    requires i < |f.locals|
    ensures Runs([I32Const(0), LocalSet(i)], f, stack, Done(SetLocal(f, i, 0), stack))
  {
    assert Simple(LocalSet(i), f, stack + [0]) == Done(SetLocal(f, i, 0), stack) by {
      assert (stack + [0])[..|stack|] == stack;
    }
    RunsSteps([I32Const(0), LocalSet(i)], [Config(f, stack), Config(f, stack + [0]), Config(SetLocal(f, i, 0), stack)]);
  }

  /** A counting loop after its local has been cleared. */
  lemma LoopRest(i: nat, n: u32, body: seq<Instr>, f: Frame, stack: seq<u32>, r: Outcome)
    requires i < |f.locals| && Runs([Loop(TurnCode(i, n, body))], SetLocal(f, i, 0), [], r)
    ensures Runs(LoopN(i, n, body), f, stack, Leave(stack, r))
  {
    var start := [I32Const(0), LocalSet(i)];
    var block := [Block([Loop(TurnCode(i, n, body))])];
    LoopStarts(i, f, stack);
    RunsBlock([Loop(TurnCode(i, n, body))], SetLocal(f, i, 0), stack, r);
    RunsBoth(start, block, f, stack, SetLocal(f, i, 0), stack, Leave(stack, r));
    assert LoopN(i, n, body) == start + block;
  }

  /** loopN ends, runs its body exactly n times with the counter going from 0 to n - 1, and leaves the
      counter at n and the operand stack as it was; for any n that fits a word and any body that ends
      regularly in each of those turns without changing the counter. */
  lemma LoopNRuns(effect: Frame -> Frame, i: nat, n: u32, body: seq<Instr>, f: Frame, stack: seq<u32>)
    requires i < |f.locals|
    requires forall j: u32 :: j < n ==> GoodTurn(effect, i, j, body, f)
    ensures Runs(LoopN(i, n, body), f, stack, Done(Turn(effect, i, n, f), stack))
    ensures var g := Turn(effect, i, n, f); i < |g.locals| && g.locals[i] == n
  {
    LoopFrom(effect, i, n, body, f, 0);
    LoopRest(i, n, body, f, stack, Branch(0, Turn(effect, i, n, f)));
    if n > 0 { assert GoodTurn(effect, i, n - 1, body, f); }
    TurnCounts(effect, i, n, f);
  }

  /** If the body ends otherwise in turn k, the loop ends with it: it traps, or branches outwards from the
      loop and the block. A branch of the body to the label of the loop itself is excluded. */
  lemma {:induction false} LoopBreaksFrom(effect: Frame -> Frame, i: nat, n: u32, body: seq<Instr>, f: Frame, k: u32,
      m: u32, r: Outcome)
    requires m <= k < n && i < |f.locals|
    requires forall j: u32 :: j < k ==> GoodTurn(effect, i, j, body, f)
    requires Runs(body, Turn(effect, i, k, f), [], r) && !r.Done? && !(r.Branch? && r.depth == 0)
    ensures Runs([Loop(TurnCode(i, n, body))], Turn(effect, i, m, f), [], Leave([], r))
    decreases k - m
  {
    var g := Turn(effect, i, m, f);
    if m > 0 { assert GoodTurn(effect, i, m - 1, body, f); }
    TurnCounts(effect, i, m, f);
    if m == k {
      TestPasses(i, n, g);
      RunsBoth(Test(i, n), body, g, [], g, [], r);
      RunsFirstPart(Test(i, n) + body, Count(i), g, [], r);
      RunsFirstPart(Test(i, n) + body + Count(i), [Br(0)], g, [], r);
      RunsLoopOnce(TurnCode(i, n, body), g, [], r);
    } else {
      assert GoodTurn(effect, i, m, body, f);
      TurnGoesOn(i, n, body, g, effect(g));
      assert Turn(effect, i, m + 1, f) == SetLocal(effect(g), i, m + 1);
      LoopBreaksFrom(effect, i, n, body, f, k, m + 1, r);
      RunsLoopAgain(TurnCode(i, n, body), g, [], Turn(effect, i, m + 1, f), Leave([], r));
    }
  }

  lemma LoopNBreaks(effect: Frame -> Frame, i: nat, n: u32, body: seq<Instr>, f: Frame, stack: seq<u32>, k: u32,
      r: Outcome)
    requires k < n && i < |f.locals|
    requires forall j: u32 :: j < k ==> GoodTurn(effect, i, j, body, f)
    requires Runs(body, Turn(effect, i, k, f), [], r) && !r.Done? && !(r.Branch? && r.depth == 0)
    ensures Runs(LoopN(i, n, body), f, stack, Leave(stack, Leave([], r)))
  {
    LoopBreaksFrom(effect, i, n, body, f, k, 0, r);
    LoopRest(i, n, body, f, stack, Leave([], r));
  }
}
