/** The emitted code that fills an array, and the code that writes a string into memory. */
module SimdFill {
  import opened Bytes
  import opened Wasm
  import opened SimdLoops
  import opened SimdKernels

  const FILL: u32 := 42

  /** The memory after the first k elements of the array at arr have been filled. */
  function Filled(mem: seq<Byte>, arr: u32, k: nat): (r: seq<Byte>)
    requires arr + 16 + 4 * k <= |mem|
    ensures |r| == |mem|
  {
    if k == 0 then mem else Store32(Filled(mem, arr, k - 1), arr + 4 * (k - 1) + 16, FILL)
  }

  /** Byte a of a memory with the first k elements of the array at arr filled. */
  function FilledByte(mem: seq<Byte>, arr: u32, k: nat, a: nat): Byte
    requires a < |mem|
  {
    if arr + 16 <= a < arr + 16 + 4 * k then (if (a - arr - 16) % 4 == 0 then 42 else 0) else mem[a]
  }

  lemma StoredByte(mem: seq<Byte>, ea: nat, a: nat)
    requires ea + 4 <= |mem| && a < |mem|
    ensures Store32(mem, ea, FILL)[a] == if a == ea then 42 else if ea < a < ea + 4 then 0 else mem[a]
  {
  }

  /** Filling writes every byte of the first k elements, and no other byte. */
  lemma {:induction false} FilledBytes(mem: seq<Byte>, arr: u32, k: nat, a: nat)
    requires arr + 16 + 4 * k <= |mem| && a < |mem|
    ensures Filled(mem, arr, k)[a] == FilledByte(mem, arr, k, a)
  {
    if k > 0 {
      FilledBytes(mem, arr, k - 1, a);
      StoredByte(Filled(mem, arr, k - 1), arr + 4 * (k - 1) + 16, a);
    }
  }

  /** Filling a filled array again changes nothing. */
  lemma FilledTwice(mem: seq<Byte>, arr: u32, k: nat)
    requires arr + 16 + 4 * k <= |mem|
    ensures Filled(Filled(mem, arr, k), arr, k) == Filled(mem, arr, k)
  {
    var once := Filled(mem, arr, k);
    forall a: nat | a < |mem| ensures Filled(once, arr, k)[a] == once[a] {
      FilledBytes(once, arr, k, a);
      FilledBytes(mem, arr, k, a);
    }
  }

  // ---------------------------------------------------------------- one store

  function StoreCode(): seq<Instr> { [I32Const(FILL), I32Store(16)] }

  function FillBody(): seq<Instr> { AddressCode(2) + StoreCode() }

  /** What one turn of the fill does to a frame. */
  ghost function StoreEffect(): Frame -> Frame {
    (f: Frame) =>
      if |f.locals| != 3 then f else
      var arr: nat, j: nat := f.locals[0], f.locals[2];
      if arr + 4 * j + 20 <= |f.mem| then f.(mem := Store32(f.mem, arr + 4 * j + 16, FILL)) else f
  }

  lemma StoreRuns(f: Frame, a: u32)
    requires a + 20 <= |f.mem|
    ensures Runs(StoreCode(), f, [a], Done(f.(mem := Store32(f.mem, a + 16, FILL)), []))
  {
    var g := f.(mem := Store32(f.mem, a + 16, FILL));
    RunsSteps(StoreCode(), [Config(f, [a]), Config(f, [a, FILL]), Config(g, [])]);
  }

  lemma FillTurn(f: Frame)
    requires |f.locals| == 3 && f.locals[0] + 4 * f.locals[2] + 20 <= |f.mem| <= WORD
    ensures Runs(FillBody(), f, [], Done(StoreEffect()(f), []))
  {
    var a := f.locals[0] + 4 * f.locals[2];
    AddressRuns(2, f);
    StoreRuns(f, a);
    RunsBoth(AddressCode(2), StoreCode(), f, [], f, [a], Done(StoreEffect()(f), []));
  }

  // ---------------------------------------------------------------- the inner loop

  /** The body of the outer loop as the benchmark spells it. */
  function FillCode(size: u32): seq<Instr> {
    [I32Const(0), LocalSet(2),
     Block([Loop(
       [LocalGet(2), I32Const(size), I32GeU, BrIf(1),
        LocalGet(0), LocalGet(2), I32Const(4), I32Mul, I32Add,
        I32Const(42), I32Store(16),
        LocalGet(2), I32Const(1), I32Add, LocalSet(2),
        Br(0)])])]
  }

  lemma FillIsALoop(size: u32)
    ensures FillCode(size) == LoopN(2, size, FillBody())
  {
    assert TurnCode(2, size, FillBody()) ==
      [LocalGet(2), I32Const(size), I32GeU, BrIf(1),
       LocalGet(0), LocalGet(2), I32Const(4), I32Mul, I32Add,
       I32Const(42), I32Store(16),
       LocalGet(2), I32Const(1), I32Add, LocalSet(2),
       Br(0)];
  }

  /** The frame at the start of turn k of the fill. */
  ghost function FillFrame(f: Frame, k: u32): Frame
    requires |f.locals| == 3 && f.locals[0] + 16 + 4 * k <= |f.mem|
  {
    Frame(f.locals[2 := k], Filled(f.mem, f.locals[0], k))
  }

  lemma StoreStep(f: Frame, k: u32)
    requires |f.locals| == 3 && k > 0 && f.locals[0] + 16 + 4 * k <= |f.mem|
    ensures SetLocal(StoreEffect()(FillFrame(f, k - 1)), 2, k) == FillFrame(f, k)
  {
    assert FillFrame(f, k - 1).locals[2 := k] == f.locals[2 := k];
  }

  lemma {:induction false} FillTurns(f: Frame, k: u32)
    requires |f.locals| == 3 && f.locals[0] + 16 + 4 * k <= |f.mem|
    ensures Turn(StoreEffect(), 2, k, f) == FillFrame(f, k)
    decreases k
  {
    if k > 0 {
      FillTurns(f, k - 1);
      StoreStep(f, k);
    }
  }

  lemma FillRuns(size: u32, f: Frame, stack: seq<u32>)
    requires |f.locals| == 3 && Fits(f, size)
    ensures Runs(FillCode(size), f, stack, Done(FillFrame(f, size), stack))
  {
    FillIsALoop(size);
    forall j: u32 | j < size ensures GoodTurn(StoreEffect(), 2, j, FillBody(), f) {
      FillTurns(f, j);
      FillTurn(FillFrame(f, j));
    }
    LoopNRuns(StoreEffect(), 2, size, FillBody(), f, stack);
    FillTurns(f, size);
  }

  // ---------------------------------------------------------------- the benchmark

  function FillBenchCode(size: u32, n: u32): seq<Instr> {
    LoopN(1, n, FillCode(size)) + [I32Const(0)]
  }

  ghost function FillEffect(size: u32): Frame -> Frame {
    (f: Frame) => if |f.locals| == 3 && Fits(f, size) then FillFrame(f, size) else f
  }

  /** After k runs of the fill: nothing but the array has changed, and that is filled if k > 0. */
  ghost predicate FilledAfter(size: u32, f: Frame, k: u32, g: Frame)
    requires |f.locals| == 3 && Fits(f, size)
  {
    && |g.locals| == 3 && g.locals[0] == f.locals[0] && g.locals[1] == k
    && g.mem == if k == 0 then f.mem else Filled(f.mem, f.locals[0], size)
  }

  lemma FillStep(size: u32, f: Frame, k: u32, g: Frame)
    requires |f.locals| == 3 && Fits(f, size) && k > 0 && FilledAfter(size, f, k - 1, g)
    ensures FilledAfter(size, f, k, SetLocal(FillEffect(size)(g), 1, k))
  {
    FilledTwice(f.mem, f.locals[0], size);
    assert FillEffect(size)(g) == FillFrame(g, size);
  }

  lemma {:induction false} FillsRepeat(size: u32, f: Frame, k: u32)
    requires |f.locals| == 3 && Fits(f, size)
    ensures FilledAfter(size, f, k, Turn(FillEffect(size), 1, k, f))
    decreases k
  {
    if k > 0 {
      FillsRepeat(size, f, k - 1);
      FillStep(size, f, k, Turn(FillEffect(size), 1, k - 1, f));
    }
  }

  lemma FillIsGood(size: u32, f: Frame, k: u32)
    requires |f.locals| == 3 && Fits(f, size)
    ensures GoodTurn(FillEffect(size), 1, k, FillCode(size), f)
  {
    var g := Turn(FillEffect(size), 1, k, f);
    FillsRepeat(size, f, k);
    FillRuns(size, g, []);
  }

  /** The emitted scalar fill code ends without a trap and returns 0. If it runs at least once, every byte of
      elements 0 to size - 1 then holds its part of 42; every other byte of memory is as before. */
  lemma FillBenchRuns(size: u32, n: u32, arr: u32, mem: seq<Byte>, iter: u32, j: u32) returns (g: Frame)
    requires arr + 16 + 4 * size <= |mem| <= WORD
    ensures Runs(FillBenchCode(size, n), Frame([arr, iter, j], mem), [], Done(g, [0]))
    ensures |g.mem| == |mem|
    ensures forall a: nat :: a < |mem| ==> g.mem[a] == FilledByte(mem, arr, if n == 0 then 0 else size, a)
    ensures n > 0 ==> forall k: nat :: k < size ==> Element(g.mem, arr, k) == FILL
  {
    var f := Frame([arr, iter, j], mem);
    var effect := FillEffect(size);
    forall k: u32 | k < n ensures GoodTurn(effect, 1, k, FillCode(size), f) {
      FillIsGood(size, f, k);
    }
    LoopNRuns(effect, 1, n, FillCode(size), f, []);
    FillsRepeat(size, f, n);
    g := Turn(effect, 1, n, f);
    RunsSimple(I32Const(0), g, []);
    RunsBoth(LoopN(1, n, FillCode(size)), [I32Const(0)], f, [], g, [], Done(g, [0]));
    forall a: nat | a < |mem| ensures g.mem[a] == FilledByte(mem, arr, if n == 0 then 0 else size, a) {
      FilledBytes(mem, arr, size, a);
    }
    if n > 0 {
      forall k: nat | k < size ensures Element(g.mem, arr, k) == FILL {
        ElementFilled(g.mem, mem, arr, size, k);
      }
    }
  }

  lemma ElementFilled(now: seq<Byte>, mem: seq<Byte>, arr: u32, size: u32, k: nat)
    requires k < size && arr + 16 + 4 * size <= |mem| == |now|
    requires forall a: nat :: a < |mem| ==> now[a] == FilledByte(mem, arr, size, a)
    ensures Element(now, arr, k) == FILL
  {
    var ea := arr + 4 * k + 16;
    assert now[ea] == 42 && now[ea + 1] == 0 && now[ea + 2] == 0 && now[ea + 3] == 0;
  }

  // ---------------------------------------------------------------- writing a string

  /** writeStr: store the bytes of an encoded string one by one. */
  function WriteCode(bytes: seq<Byte>, off: nat): seq<Instr> {
    if bytes == [] then []
    else [I32Const(off), I32Const(bytes[0]), I32Store8(0)] + WriteCode(bytes[1..], off + 1)
  }

  lemma StoreByteStep(f: Frame, stack: seq<u32>, off: u32, b: Byte)
    requires off < |f.mem|
    ensures Simple(I32Store8(0), f, stack + [off] + [b]) == Done(f.(mem := f.mem[off := b]), stack)
  {
    assert (stack + [off] + [b])[..|stack|] == stack;
  }

  lemma WriteByteRuns(f: Frame, stack: seq<u32>, off: nat, b: Byte)
    requires off < |f.mem| <= WORD
    ensures Runs([I32Const(off), I32Const(b), I32Store8(0)], f, stack, Done(f.(mem := f.mem[off := b]), stack))
  {
    StoreByteStep(f, stack, off, b);
    RunsThree(I32Const(off), I32Const(b), I32Store8(0), Config(f, stack), Config(f, stack + [off]),
              Config(f, stack + [off] + [b]), Config(f.(mem := f.mem[off := b]), stack));
  }

  /** The emitted code puts the bytes at the offset and leaves the rest of memory, the locals and the stack alone. */
  lemma {:induction false} WriteRuns(bytes: seq<Byte>, off: nat, f: Frame, stack: seq<u32>)
    requires off + |bytes| <= |f.mem| <= WORD
    ensures Runs(WriteCode(bytes, off), f, stack,
                 Done(f.(mem := f.mem[..off] + bytes + f.mem[off + |bytes|..]), stack))
    decreases |bytes|
  {
    var end := f.(mem := f.mem[..off] + bytes + f.mem[off + |bytes|..]);
    if bytes == [] {
      assert end.mem == f.mem;
      RunsNothing(f, stack);
    } else {
      var g := f.(mem := f.mem[off := bytes[0]]);
      WriteByteRuns(f, stack, off, bytes[0]);
      WriteRuns(bytes[1..], off + 1, g, stack);
      assert g.mem[..off + 1] + bytes[1..] + g.mem[off + |bytes|..] == end.mem;
      RunsBoth([I32Const(off), I32Const(bytes[0]), I32Store8(0)], WriteCode(bytes[1..], off + 1), f, stack, g, stack,
        Done(end, stack));
    }
  }
}
