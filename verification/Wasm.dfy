/** The WebAssembly instructions that the benchmark kernels are made of, with the execution rules of
    section 4.4 of the WebAssembly Core Specification 1.0. All blocks have the empty block type. */
module Wasm {
  import opened Bytes

  const WORD: nat := 0x1_0000_0000
  type u32 = x: nat | x < 0x1_0000_0000

  datatype Instr =
    | I32Const(value: nat)
    | LocalGet(index: nat)
    | LocalSet(index: nat)
    | I32Add
    | I32Mul
    | I32Eq
    | I32GeU
    | I32Load(offset: nat)
    | I32Store(offset: nat)
    | I32Store8(offset: nat)
    | Br(depth: nat)
    | BrIf(depth: nat)
    | Block(body: seq<Instr>)
    | Loop(body: seq<Instr>)
    | If(thenBody: seq<Instr>)

  /** The locals and the memory of the running function. */
  datatype Frame = Frame(locals: seq<u32>, mem: seq<Byte>)

  /** How a sequence of instructions ends: it runs off its end with an operand stack, branches to an
      enclosing label, or traps. OutOfFuel is no outcome: the run has not ended yet. */
  datatype Outcome =
    | Done(frame: Frame, stack: seq<u32>)
    | Branch(depth: nat, frame: Frame)
    | Trap
    | OutOfFuel

  // ---------------------------------------------------------------- memory

  /** Four bytes, least significant first. */
  function Word(b0: Byte, b1: Byte, b2: Byte, b3: Byte): (r: u32) {
    b0 + 0x100 * (b1 + 0x100 * (b2 + 0x100 * b3))
  }

  function ByteOf(x: u32, k: nat): Byte
    requires k < 4
  {
    if k == 0 then x % 0x100
    else if k == 1 then x / 0x100 % 0x100
    else if k == 2 then x / 0x100 / 0x100 % 0x100
    else x / 0x100 / 0x100 / 0x100
  }

  function Load32(mem: seq<Byte>, ea: nat): u32
    requires ea + 4 <= |mem|
  {
    Word(mem[ea], mem[ea + 1], mem[ea + 2], mem[ea + 3])
  }

  function Store32(mem: seq<Byte>, ea: nat, x: u32): (r: seq<Byte>)
    requires ea + 4 <= |mem|
    ensures |r| == |mem|
  {
    mem[ea := ByteOf(x, 0)][ea + 1 := ByteOf(x, 1)][ea + 2 := ByteOf(x, 2)][ea + 3 := ByteOf(x, 3)]
  }

  lemma BytesOfWord(x: u32)
    ensures Word(ByteOf(x, 0), ByteOf(x, 1), ByteOf(x, 2), ByteOf(x, 3)) == x
  {
  }

  lemma LoadAfterStore(mem: seq<Byte>, ea: nat, x: u32)
    requires ea + 4 <= |mem|
    ensures Load32(Store32(mem, ea, x), ea) == x
  {
    var m := Store32(mem, ea, x);
    assert m[ea] == ByteOf(x, 0) && m[ea + 1] == ByteOf(x, 1) && m[ea + 2] == ByteOf(x, 2) && m[ea + 3] == ByteOf(x, 3);
    BytesOfWord(x);
  }

  // ---------------------------------------------------------------- execution

  /** One instruction without a body. */
  function Simple(i: Instr, f: Frame, stack: seq<u32>): Outcome
    requires !i.Block? && !i.Loop? && !i.If?
  {
    var n := |stack|;
    match i
    case I32Const(value) => Done(f, stack + [value % WORD])
    case LocalGet(index) => if index < |f.locals| then Done(f, stack + [f.locals[index]]) else Trap
    case LocalSet(index) =>
      if index < |f.locals| && n >= 1 then Done(f.(locals := f.locals[index := stack[n - 1]]), stack[..n - 1]) else Trap
    case I32Add => if n >= 2 then Done(f, stack[..n - 2] + [(stack[n - 2] + stack[n - 1]) % WORD]) else Trap
    case I32Mul => if n >= 2 then Done(f, stack[..n - 2] + [(stack[n - 2] * stack[n - 1]) % WORD]) else Trap
    case I32Eq => if n >= 2 then Done(f, stack[..n - 2] + [if stack[n - 2] == stack[n - 1] then 1 else 0]) else Trap
    case I32GeU => if n >= 2 then Done(f, stack[..n - 2] + [if stack[n - 2] >= stack[n - 1] then 1 else 0]) else Trap
    case I32Load(offset) =>
      if n >= 1 && stack[n - 1] + offset + 4 <= |f.mem|
      then Done(f, stack[..n - 1] + [Load32(f.mem, stack[n - 1] + offset)]) else Trap
    case I32Store(offset) =>
      if n >= 2 && stack[n - 2] + offset + 4 <= |f.mem|
      then Done(f.(mem := Store32(f.mem, stack[n - 2] + offset, stack[n - 1])), stack[..n - 2]) else Trap
    case I32Store8(offset) =>
      if n >= 2 && stack[n - 2] + offset < |f.mem|
      then Done(f.(mem := f.mem[stack[n - 2] + offset := stack[n - 1] % 256]), stack[..n - 2]) else Trap
    case Br(depth) => Branch(depth, f)
    case BrIf(depth) =>
      if n >= 1 then (if stack[n - 1] != 0 then Branch(depth, f) else Done(f, stack[..n - 1])) else Trap
  }

  /** What a block with outer stack below makes of the outcome of its body: a branch to label 0 ends the
      block, and a branch further out goes on outwards. */
  function Leave(below: seq<u32>, r: Outcome): Outcome {
    match r
    case Done(f, stack) => Done(f, below + stack)
    case Branch(depth, f) => if depth == 0 then Done(f, below) else Branch(depth - 1, f)
    case Trap => Trap
    case OutOfFuel => OutOfFuel
  }

  /** One instruction. The body of a block, a loop or an if starts on an empty operand stack of its own;
      a branch to the label of a loop starts the loop again. */
  function One(i: Instr, f: Frame, stack: seq<u32>, fuel: nat): Outcome
    decreases fuel, i, 1
  {
    match i
    case Block(body) => Leave(stack, Exec(body, f, [], fuel))
    case Loop(body) =>
      var r := Exec(body, f, [], fuel);
      if r.Branch? && r.depth == 0 then
        (if fuel == 0 then OutOfFuel else One(i, r.frame, stack, fuel - 1))
      else Leave(stack, r)
    case If(thenBody) =>
      if stack == [] then Trap
      else if stack[|stack| - 1] != 0 then Leave(stack[..|stack| - 1], Exec(thenBody, f, [], fuel))
      else Done(f, stack[..|stack| - 1])
    case _ => Simple(i, f, stack)
  }

  /** A sequence of instructions; fuel bounds how often its loops may start again. */
  function Exec(code: seq<Instr>, f: Frame, stack: seq<u32>, fuel: nat): Outcome
    decreases fuel, code, 0
  {
    if code == [] then Done(f, stack)
    else
      var r := One(code[0], f, stack, fuel);
      if r.Done? then Exec(code[1..], r.frame, r.stack, fuel) else r
  }

  /** The run ends, with outcome r. */
  ghost predicate Runs(code: seq<Instr>, f: Frame, stack: seq<u32>, r: Outcome) {
    r != OutOfFuel && exists fuel: nat :: Exec(code, f, stack, fuel) == r
  }

  // ---------------------------------------------------------------- fuel

  lemma {:induction false} OneWithMoreFuel(i: Instr, f: Frame, stack: seq<u32>, fuel: nat, more: nat)
    requires One(i, f, stack, fuel) != OutOfFuel && fuel <= more
    ensures One(i, f, stack, more) == One(i, f, stack, fuel)
    decreases fuel, i, 1
  {
    match i
    case Block(body) => ExecWithMoreFuel(body, f, [], fuel, more);
    case Loop(body) =>
      ExecWithMoreFuel(body, f, [], fuel, more);
      var r := Exec(body, f, [], fuel);
      if r.Branch? && r.depth == 0 { OneWithMoreFuel(i, r.frame, stack, fuel - 1, more - 1); }
    case If(thenBody) => if stack != [] && stack[|stack| - 1] != 0 { ExecWithMoreFuel(thenBody, f, [], fuel, more); }
    case _ =>
  }

  /** A run that has ended does not depend on the fuel that is left. */
  lemma {:induction false} ExecWithMoreFuel(code: seq<Instr>, f: Frame, stack: seq<u32>, fuel: nat, more: nat)
    requires Exec(code, f, stack, fuel) != OutOfFuel && fuel <= more
    ensures Exec(code, f, stack, more) == Exec(code, f, stack, fuel)
    decreases fuel, code, 0
  {
    if code != [] {
      OneWithMoreFuel(code[0], f, stack, fuel, more);
      var r := One(code[0], f, stack, fuel);
      if r.Done? { ExecWithMoreFuel(code[1..], r.frame, r.stack, fuel, more); }
    }
  }

  /** A run has at most one outcome. */
  lemma RunsOnlyOneWay(code: seq<Instr>, f: Frame, stack: seq<u32>, a: Outcome, b: Outcome)
    requires Runs(code, f, stack, a) && Runs(code, f, stack, b)
    ensures a == b
  {
    var m: nat :| Exec(code, f, stack, m) == a;
    var n: nat :| Exec(code, f, stack, n) == b;
    if m <= n { ExecWithMoreFuel(code, f, stack, m, n); } else { ExecWithMoreFuel(code, f, stack, n, m); }
  }

  // ---------------------------------------------------------------- rules for runs

  lemma RunsNothing(f: Frame, stack: seq<u32>)
    ensures Runs([], f, stack, Done(f, stack))
  {
    assert Exec([], f, stack, 0) == Done(f, stack);
  }

  lemma RunsSimple(i: Instr, f: Frame, stack: seq<u32>)
    requires !i.Block? && !i.Loop? && !i.If?
    ensures Runs([i], f, stack, Simple(i, f, stack))
  {
    assert [i][1..] == [];
    assert Exec([i], f, stack, 0) == Simple(i, f, stack);
  }

  lemma RunsBlock(body: seq<Instr>, f: Frame, stack: seq<u32>, r: Outcome)
    requires Runs(body, f, [], r)
    ensures Runs([Block(body)], f, stack, Leave(stack, r))
  {
    var m: nat :| Exec(body, f, [], m) == r;
    assert [Block(body)][1..] == [];
    assert Exec([Block(body)], f, stack, m) == Leave(stack, r);
  }

  lemma RunsIf(body: seq<Instr>, f: Frame, stack: seq<u32>, r: Outcome)
    requires Runs(body, f, [], r) && stack != [] && stack[|stack| - 1] != 0
    ensures Runs([If(body)], f, stack, Leave(stack[..|stack| - 1], r))
  {
    var m: nat :| Exec(body, f, [], m) == r;
    assert [If(body)][1..] == [];
    assert Exec([If(body)], f, stack, m) == Leave(stack[..|stack| - 1], r);
  }

  lemma SkipsIf(body: seq<Instr>, f: Frame, stack: seq<u32>)
    requires stack != [] && stack[|stack| - 1] == 0
    ensures Runs([If(body)], f, stack, Done(f, stack[..|stack| - 1]))
  {
    assert [If(body)][1..] == [];
    assert Exec([If(body)], f, stack, 0) == Done(f, stack[..|stack| - 1]);
  }

  /** The body of a loop branches to its own label: the loop starts again. */
  lemma RunsLoopAgain(body: seq<Instr>, f: Frame, stack: seq<u32>, f1: Frame, r: Outcome)
    requires Runs(body, f, [], Branch(0, f1)) && Runs([Loop(body)], f1, stack, r)
    ensures Runs([Loop(body)], f, stack, r)
  {
    var m: nat :| Exec(body, f, [], m) == Branch(0, f1);
    var n: nat :| Exec([Loop(body)], f1, stack, n) == r;
    var fuel := m + n + 1;
    ExecWithMoreFuel(body, f, [], m, fuel);
    ExecWithMoreFuel([Loop(body)], f1, stack, n, fuel - 1);
    ExecWithMoreFuel([Loop(body)], f1, stack, n, fuel);
    assert [Loop(body)][1..] == [];
    OneOfLoop(body, f1, stack, fuel - 1, fuel);
    assert One(Loop(body), f, stack, fuel) == One(Loop(body), f1, stack, fuel - 1);
    assert Exec([Loop(body)], f, stack, fuel) == r;
  }

  lemma OneOfLoop(body: seq<Instr>, f: Frame, stack: seq<u32>, fuel: nat, more: nat)
    requires Exec([Loop(body)], f, stack, fuel) != OutOfFuel && fuel <= more
    ensures One(Loop(body), f, stack, fuel) == Exec([Loop(body)], f, stack, fuel)
  {
    assert [Loop(body)][1..] == [];
  }

  /** The body of a loop ends in any other way: so does the loop. */
  lemma RunsLoopOnce(body: seq<Instr>, f: Frame, stack: seq<u32>, r: Outcome)
    requires Runs(body, f, [], r) && !(r.Branch? && r.depth == 0)
    ensures Runs([Loop(body)], f, stack, Leave(stack, r))
  {
    var m: nat :| Exec(body, f, [], m) == r;
    assert [Loop(body)][1..] == [];
    assert Exec([Loop(body)], f, stack, m) == Leave(stack, r);
  }

  /** Two sequences one after the other. */
  lemma {:induction false} RunsBoth(a: seq<Instr>, b: seq<Instr>, f: Frame, stack: seq<u32>, f1: Frame,
      stack1: seq<u32>, r: Outcome)
    requires Runs(a, f, stack, Done(f1, stack1)) && Runs(b, f1, stack1, r)
    ensures Runs(a + b, f, stack, r)
  {
    var m: nat :| Exec(a, f, stack, m) == Done(f1, stack1);
    var n: nat :| Exec(b, f1, stack1, n) == r;
    ExecWithMoreFuel(a, f, stack, m, m + n);
    ExecWithMoreFuel(b, f1, stack1, n, m + n);
    ExecConcat(a, b, f, stack, m + n);
  }

  lemma RunsFirstPart(a: seq<Instr>, b: seq<Instr>, f: Frame, stack: seq<u32>, r: Outcome)
    requires Runs(a, f, stack, r) && !r.Done?
    ensures Runs(a + b, f, stack, r)
  {
    var m: nat :| Exec(a, f, stack, m) == r;
    ExecConcat(a, b, f, stack, m);
  }

  lemma {:induction false} ExecConcat(a: seq<Instr>, b: seq<Instr>, f: Frame, stack: seq<u32>, fuel: nat)
    ensures Exec(a + b, f, stack, fuel) ==
      var r := Exec(a, f, stack, fuel); if r.Done? then Exec(b, r.frame, r.stack, fuel) else r
    decreases |a|
  {
    if a == [] {
      assert a + b == b;
    } else {
      assert (a + b)[1..] == a[1..] + b;
      var r := One(a[0], f, stack, fuel);
      if r.Done? { ExecConcat(a[1..], b, r.frame, r.stack, fuel); }
    }
  }

  // ---------------------------------------------------------------- straight-line code

  ghost predicate IsSimple(i: Instr) { !i.Block? && !i.Loop? && !i.If? }

  datatype Config = Config(frame: Frame, stack: seq<u32>)

  /** Every instruction leads from one configuration to the next. */
  ghost predicate Steps(code: seq<Instr>, at: seq<Config>) {
    && |at| == |code| + 1
    && forall k :: 0 <= k < |code| ==>
         IsSimple(code[k]) && Simple(code[k], at[k].frame, at[k].stack) == Done(at[k + 1].frame, at[k + 1].stack)
  }

  lemma {:induction false} RunsSteps(code: seq<Instr>, at: seq<Config>)
    requires Steps(code, at)
    ensures Runs(code, at[0].frame, at[0].stack, Done(at[|code|].frame, at[|code|].stack))
    decreases |code|
  {
    if code == [] {
      RunsNothing(at[0].frame, at[0].stack);
    } else {
      assert code == [code[0]] + code[1..];
      RunsSimple(code[0], at[0].frame, at[0].stack);
      RunsSteps(code[1..], at[1..]);
      RunsBoth([code[0]], code[1..], at[0].frame, at[0].stack, at[1].frame, at[1].stack,
               Done(at[|code|].frame, at[|code|].stack));
    }
  }

  /** One instruction leads from a configuration to the next. */
  ghost predicate Leads(i: Instr, a: Config, b: Config) {
    IsSimple(i) && Simple(i, a.frame, a.stack) == Done(b.frame, b.stack)
  }

  lemma RunsTwo(i: Instr, j: Instr, a: Config, b: Config, c: Config)
    requires Leads(i, a, b) && Leads(j, b, c)
    ensures Runs([i, j], a.frame, a.stack, Done(c.frame, c.stack))
  {
    RunsSteps([i, j], [a, b, c]);
  }

  lemma RunsThree(i: Instr, j: Instr, k: Instr, a: Config, b: Config, c: Config, d: Config)
    requires Leads(i, a, b) && Leads(j, b, c) && Leads(k, c, d)
    ensures Runs([i, j, k], a.frame, a.stack, Done(d.frame, d.stack))
  {
    RunsSteps([i, j, k], [a, b, c, d]);
  }

  lemma RunsFour(i: Instr, j: Instr, k: Instr, l: Instr, a: Config, b: Config, c: Config, d: Config, e: Config)
    requires Leads(i, a, b) && Leads(j, b, c) && Leads(k, c, d) && Leads(l, d, e)
    ensures Runs([i, j, k, l], a.frame, a.stack, Done(e.frame, e.stack))
  {
    RunsSteps([i, j, k, l], [a, b, c, d, e]);
  }
}
