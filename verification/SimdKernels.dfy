/** The scalar kernels of the SIMD benchmark: what the emitted indexOf, fill and string-writing code computes. */
module SimdKernels {
  import opened Bytes
  import opened Remainders
  import opened Wasm
  import opened SimdLoops

  // ---------------------------------------------------------------- elements of an array

  /** The array at address arr has at least size elements of four bytes, after a header of 16 bytes. */
  ghost predicate Fits(f: Frame, size: u32) {
    f.locals != [] && f.locals[0] + 16 + 4 * size <= |f.mem| <= WORD
  }

  function Element(mem: seq<Byte>, arr: u32, k: nat): u32
    requires arr + 16 + 4 * (k + 1) <= |mem|
  {
    Load32(mem, arr + 4 * k + 16)
  }

  /** The index of the first element from k on that is target, or size. */
  function FirstIndex(mem: seq<Byte>, arr: u32, size: u32, target: u32, k: u32): (r: u32)
    requires k <= size && arr + 16 + 4 * size <= |mem|
    ensures k <= r <= size
    ensures r < size ==> Element(mem, arr, r) == target
    ensures forall j: nat :: k <= j < r ==> Element(mem, arr, j) != target
    decreases size - k
  {
    if k == size || Element(mem, arr, k) == target then k else FirstIndex(mem, arr, size, target, k + 1)
  }

  /** The code for the address of the element whose index is in local j, without the header. */
  function AddressCode(j: nat): seq<Instr> {
    [LocalGet(0), LocalGet(j), I32Const(4), I32Mul, I32Add]
  }

  lemma Multiplies(f: Frame, arr: u32, k: u32)
    requires 4 * k < WORD
    ensures Simple(I32Mul, f, [arr, k, 4]) == Done(f, [arr, 4 * k])
  {
    assert [arr, k, 4][..1] + [4 * k] == [arr, 4 * k];
  }

  lemma AddsUp(f: Frame, a: u32, b: u32)
    requires a + b < WORD
    ensures Simple(I32Add, f, [a, b]) == Done(f, [a + b])
  {
    assert [a, b][..0] + [a + b] == [a + b];
  }

  lemma AddressRuns(j: nat, f: Frame)
    requires j < |f.locals| && f.locals[0] + 4 * f.locals[j] < WORD
    ensures Runs(AddressCode(j), f, [], Done(f, [f.locals[0] + 4 * f.locals[j]]))
  {
    var arr, k := f.locals[0], f.locals[j];
    var x := 4 * k;
    Multiplies(f, arr, k);
    AddsUp(f, arr, x);
    RunsThree(LocalGet(0), LocalGet(j), I32Const(4), Config(f, []), Config(f, [arr]), Config(f, [arr, k]),
      Config(f, [arr, k, 4]));
    RunsTwo(I32Mul, I32Add, Config(f, [arr, k, 4]), Config(f, [arr, x]), Config(f, [arr + x]));
    RunsBoth([LocalGet(0), LocalGet(j), I32Const(4)], [I32Mul, I32Add], f, [], f, [arr, k, 4], Done(f, [arr + x]));
    assert AddressCode(j) == [LocalGet(0), LocalGet(j), I32Const(4)] + [I32Mul, I32Add];
  }

  // ---------------------------------------------------------------- indexOf

  function Target(size: u32): u32 { (size + WORD - 1) % WORD }

  function FoundCode(): seq<Instr> { [LocalGet(3), LocalGet(2), I32Add, LocalSet(2), Br(2)] }

  function CompareCode(size: u32): seq<Instr> { [I32Load(16), I32Const(Target(size)), I32Eq] }

  /** One turn of the scan: on a match, add the index to the sum and branch out of the scan. */
  function ScanBody(size: u32): seq<Instr> {
    AddressCode(3) + CompareCode(size) + [If(FoundCode())]
  }

  /** The body of the outer loop as the benchmark spells it. */
  function ScanCode(size: u32): seq<Instr> {
    [I32Const(0), LocalSet(3),
     Block([Loop(
       [LocalGet(3), I32Const(size), I32GeU, BrIf(1),
        LocalGet(0), LocalGet(3), I32Const(4), I32Mul, I32Add,
        I32Load(16), I32Const(Target(size)), I32Eq,
        If([LocalGet(3), LocalGet(2), I32Add, LocalSet(2), Br(2)]),
        LocalGet(3), I32Const(1), I32Add, LocalSet(3),
        Br(0)])])]
  }

  /** The scan has the form of loopN, over local 3. */
  lemma ScanIsALoop(size: u32)
    ensures ScanCode(size) == LoopN(3, size, ScanBody(size))
  {
    assert TurnCode(3, size, ScanBody(size)) ==
      [LocalGet(3), I32Const(size), I32GeU, BrIf(1),
       LocalGet(0), LocalGet(3), I32Const(4), I32Mul, I32Add,
       I32Load(16), I32Const(Target(size)), I32Eq,
       If([LocalGet(3), LocalGet(2), I32Add, LocalSet(2), Br(2)]),
       LocalGet(3), I32Const(1), I32Add, LocalSet(3),
       Br(0)];
  }

  lemma EqRuns(f: Frame, x: u32, t: u32, c: u32)
    requires c == if x == t then 1 else 0
    ensures Runs([I32Const(t), I32Eq], f, [x], Done(f, [c]))
  {
    RunsSteps([I32Const(t), I32Eq], [Config(f, [x]), Config(f, [x, t]), Config(f, [c])]);
  }

  lemma CompareLoaded(f: Frame, a: u32, x: u32, t: u32, c: u32)
    requires Runs([I32Load(16)], f, [a], Done(f, [x])) && c == if x == t then 1 else 0
    ensures Runs([I32Load(16), I32Const(t), I32Eq], f, [a], Done(f, [c]))
  {
    EqRuns(f, x, t, c);
    RunsBoth([I32Load(16)], [I32Const(t), I32Eq], f, [a], f, [x], Done(f, [c]));
    assert [I32Load(16), I32Const(t), I32Eq] == [I32Load(16)] + [I32Const(t), I32Eq];
  }

  /** Loading the word at a and comparing it with the target. */
  lemma LoadAndCompare(size: u32, f: Frame, a: u32)
    requires a + 20 <= |f.mem|
    ensures Runs(CompareCode(size), f, [a], Done(f, [if Load32(f.mem, a + 16) == Target(size) then 1 else 0]))
  {
    var x := Load32(f.mem, a + 16);
    LoadsWord(f, a);
    CompareLoaded(f, a, x, Target(size), if x == Target(size) then 1 else 0);
  }

  lemma LoadsWord(f: Frame, a: u32)
    requires a + 20 <= |f.mem|
    ensures Runs([I32Load(16)], f, [a], Done(f, [Load32(f.mem, a + 16)]))
  {
    RunsSimple(I32Load(16), f, [a]);
    assert [a][..0] + [Load32(f.mem, a + 16)] == [Load32(f.mem, a + 16)];
  }

  /** Comparing element k with the target. */
  lemma CompareRuns(size: u32, f: Frame, k: u32)
    requires |f.locals| == 4 && Fits(f, size) && k < size && f.locals[3] == k
    ensures Runs(AddressCode(3) + CompareCode(size), f, [],
                 Done(f, [if Element(f.mem, f.locals[0], k) == Target(size) then 1 else 0]))
  {
    var a := f.locals[0] + 4 * k;
    AddressRuns(3, f);
    LoadAndCompare(size, f, a);
    RunsBoth(AddressCode(3), CompareCode(size), f, [], f, [a],
             Done(f, [if Element(f.mem, f.locals[0], k) == Target(size) then 1 else 0]));
  }

  /** The frame after a match at index k. */
  function AfterMatch(f: Frame, k: u32): Frame
    requires |f.locals| == 4
  {
    f.(locals := f.locals[2 := (k + f.locals[2]) % WORD])
  }

  lemma AddsUpModulo(f: Frame, k: u32, sum: u32, total: u32)
    requires total == (k + sum) % WORD
    ensures Leads(I32Add, Config(f, [k, sum]), Config(f, [total]))
  {
    assert [k, sum][..0] + [total] == [total];
  }

  lemma IndexSteps(f: Frame, k: u32, sum: u32, total: u32)
    requires |f.locals| == 4 && f.locals[3] == k && f.locals[2] == sum
    ensures Leads(LocalGet(3), Config(f, []), Config(f, [k])) && Leads(LocalGet(2), Config(f, [k]), Config(f, [k, sum]))
    ensures Leads(LocalSet(2), Config(f, [total]), Config(f.(locals := f.locals[2 := total]), []))
  {
  }

  lemma AddsIndex(f: Frame)
    requires |f.locals| == 4
    ensures Runs([LocalGet(3), LocalGet(2), I32Add, LocalSet(2)], f, [], Done(AfterMatch(f, f.locals[3]), []))
  {
    var k, sum, total := f.locals[3], f.locals[2], (f.locals[3] + f.locals[2]) % WORD;
    AddsUpModulo(f, k, sum, total);
    IndexSteps(f, k, sum, total);
    RunsFour(LocalGet(3), LocalGet(2), I32Add, LocalSet(2), Config(f, []), Config(f, [k]), Config(f, [k, sum]),
             Config(f, [total]), Config(f.(locals := f.locals[2 := total]), []));
  }

  lemma FoundRuns(f: Frame)
    requires |f.locals| == 4
    ensures Runs(FoundCode(), f, [], Branch(2, AfterMatch(f, f.locals[3])))
  {
    var g := AfterMatch(f, f.locals[3]);
    AddsIndex(f);
    RunsSimple(Br(2), g, []);
    RunsBoth([LocalGet(3), LocalGet(2), I32Add, LocalSet(2)], [Br(2)], f, [], g, [], Branch(2, g));
    assert FoundCode() == [LocalGet(3), LocalGet(2), I32Add, LocalSet(2)] + [Br(2)];
  }

  /** A turn without a match changes nothing; a turn with one branches to the label after the loop's. */
  lemma ScanTurn(size: u32, f: Frame, k: u32)
    requires |f.locals| == 4 && Fits(f, size) && k < size && f.locals[3] == k
    ensures Runs(ScanBody(size), f, [],
      if Element(f.mem, f.locals[0], k) == Target(size) then Branch(1, AfterMatch(f, k)) else Done(f, []))
  {
    var c := if Element(f.mem, f.locals[0], k) == Target(size) then 1 else 0;
    var r := if c == 1 then Branch(1, AfterMatch(f, k)) else Done(f, []);
    CompareRuns(size, f, k);
    assert [c][..0] == [];
    if c == 1 {
      FoundRuns(f);
      RunsIf(FoundCode(), f, [c], Branch(2, AfterMatch(f, k)));
    } else {
      SkipsIf(FoundCode(), f, [c]);
    }
    RunsBoth(AddressCode(3) + CompareCode(size), [If(FoundCode())], f, [], f, [c], r);
  }

  /** What the whole scan does to a frame. */
  ghost function ScanEffect(size: u32): Frame -> Frame {
    (f: Frame) =>
      if |f.locals| == 4 && Fits(f, size) then
        var k := FirstIndex(f.mem, f.locals[0], size, Target(size), 0);
        if k < size then AfterMatch(SetLocal(f, 3, k), k) else SetLocal(f, 3, k)
      else f
  }

  ghost function Same(): Frame -> Frame { (f: Frame) => f }

  lemma {:induction false} TurnOfSame(i: nat, k: u32, f: Frame)
    requires i < |f.locals|
    ensures Turn(Same(), i, k, f) == SetLocal(f, i, k)
    decreases k
  {
    if k > 0 {
      TurnOfSame(i, k - 1, f);
    }
  }

  lemma ScanRuns(size: u32, f: Frame, stack: seq<u32>)
    requires |f.locals| == 4 && Fits(f, size)
    ensures Runs(ScanCode(size), f, stack, Done(ScanEffect(size)(f), stack))
  {
    var k := FirstIndex(f.mem, f.locals[0], size, Target(size), 0);
    ScanIsALoop(size);
    forall j: u32 | j < k ensures GoodTurn(Same(), 3, j, ScanBody(size), f) {
      TurnOfSame(3, j, f);
      ScanTurn(size, SetLocal(f, 3, j), j);
    }
    TurnOfSame(3, k, f);
    if k < size {
      ScanTurn(size, SetLocal(f, 3, k), k);
      LoopNBreaks(Same(), 3, size, ScanBody(size), f, stack, k, Branch(1, AfterMatch(SetLocal(f, 3, k), k)));
    } else {
      LoopNRuns(Same(), 3, size, ScanBody(size), f, stack);
    }
  }

  /** The benchmark function: clear the sum, scan n times, return the sum. */
  function IndexOfCode(size: u32, n: u32): seq<Instr> {
    [I32Const(0), LocalSet(2)] + LoopN(1, n, ScanCode(size)) + [LocalGet(2)]
  }

  /** What one scan contributes to the sum. */
  ghost function Contribution(mem: seq<Byte>, arr: u32, size: u32): u32
    requires arr + 16 + 4 * size <= |mem|
  {
    var k := FirstIndex(mem, arr, size, Target(size), 0);
    if k < size then k else 0
  }

  /** e is like g, but for a sum that is c larger, modulo the word size. Locals 1 and 3 are left out. */
  ghost predicate Adds(g: Frame, c: u32, e: Frame) {
    && |g.locals| == |e.locals| == 4 && e.mem == g.mem && e.locals[0] == g.locals[0]
    && e.locals[2] == (g.locals[2] + c) % WORD
  }

  lemma MatchAdds(f: Frame, k: u32)
    requires |f.locals| == 4
    ensures Adds(f, k, AfterMatch(SetLocal(f, 3, k), k)) && AfterMatch(SetLocal(f, 3, k), k).locals[1] == f.locals[1]
  {
    var g := SetLocal(f, 3, k);
    assert g.locals == f.locals[3 := k];
    assert k + f.locals[2] == f.locals[2] + k;
  }

  lemma NoMatchAdds(f: Frame, k: u32)
    requires |f.locals| == 4
    ensures Adds(f, 0, SetLocal(f, 3, k)) && SetLocal(f, 3, k).locals[1] == f.locals[1]
  {
    assert f.locals[2] % WORD == f.locals[2];
  }

  lemma ScanAdds(size: u32, f: Frame, k: u32)
    requires |f.locals| == 4 && Fits(f, size) && k == FirstIndex(f.mem, f.locals[0], size, Target(size), 0)
    ensures Adds(f, if k < size then k else 0, ScanEffect(size)(f)) && ScanEffect(size)(f).locals[1] == f.locals[1]
  {
    if k < size { MatchAdds(f, k); } else { NoMatchAdds(f, k); }
  }

  /** The sum after c was added k times, each time modulo the word size. */
  ghost function AddTimes(sum: u32, k: nat, c: u32): u32 {
    if k == 0 then sum else (AddTimes(sum, k - 1, c) + c) % WORD
  }

  lemma MulStep(k: nat, c: nat)
    requires k > 0
    ensures k * c == (k - 1) * c + c
  {
  }

  /** Repeated addition from 0 is multiplication, modulo the word size. */
  lemma {:induction false} AddTimesIsProduct(k: nat, c: u32)
    ensures AddTimes(0, k, c) == k * c % WORD
  {
    if k > 0 {
      AddTimesIsProduct(k - 1, c);
      ModAdd((k - 1) * c, c, WORD);
      MulStep(k, c);
    }
  }

  /** An effect that adds c to the sum in each turn. */
  ghost predicate AlwaysAdds(effect: Frame -> Frame, f: Frame, c: u32)
    requires |f.locals| == 4
  {
    forall g: Frame {:trigger Adds(g, c, effect(g))} ::
      |g.locals| == 4 && g.mem == f.mem && g.locals[0] == f.locals[0] ==> Adds(g, c, effect(g))
  }

  /** g is f after c was added k times to the sum, with the counter at k. */
  ghost predicate Summed(f: Frame, k: u32, c: u32, g: Frame)
    requires |f.locals| == 4
  {
    && |g.locals| == 4 && g.mem == f.mem && g.locals[0] == f.locals[0] && g.locals[1] == k
    && g.locals[2] == AddTimes(f.locals[2], k, c)
  }

  lemma SummedStep(f: Frame, k: u32, c: u32, g: Frame, e: Frame)
    requires |f.locals| == 4 && k + 1 < WORD && Summed(f, k, c, g) && Adds(g, c, e)
    ensures Summed(f, k + 1, c, SetLocal(e, 1, k + 1))
  {
    var h := SetLocal(e, 1, k + 1);
    assert h.locals == e.locals[1 := k + 1];
  }

  /** After k such turns the sum has grown by k times c. */
  lemma {:induction false} TurnsAdd(effect: Frame -> Frame, f: Frame, k: u32, c: u32)
    requires |f.locals| == 4 && AlwaysAdds(effect, f, c)
    ensures Summed(f, k, c, Turn(effect, 1, k, f))
    decreases k
  {
    if k == 0 {
      FirstTurn(effect, f, c);
    } else {
      TurnsAdd(effect, f, k - 1, c);
      NextTurn(effect, f, k, c);
    }
  }

  lemma FirstTurn(effect: Frame -> Frame, f: Frame, c: u32)
    requires |f.locals| == 4
    ensures Summed(f, 0, c, Turn(effect, 1, 0, f))
  {
    assert Turn(effect, 1, 0, f).locals == f.locals[1 := 0];
  }

  lemma NextTurn(effect: Frame -> Frame, f: Frame, k: u32, c: u32)
    requires |f.locals| == 4 && k > 0 && AlwaysAdds(effect, f, c) && Summed(f, k - 1, c, Turn(effect, 1, k - 1, f))
    ensures Summed(f, k, c, Turn(effect, 1, k, f))
  {
    var g := Turn(effect, 1, k - 1, f);
    assert Adds(g, c, effect(g));
    SummedStep(f, k - 1, c, g, effect(g));
  }

  lemma ScansAdd(size: u32, f: Frame)
    requires |f.locals| == 4 && Fits(f, size)
    ensures AlwaysAdds(ScanEffect(size), f, Contribution(f.mem, f.locals[0], size))
  {
    var k := FirstIndex(f.mem, f.locals[0], size, Target(size), 0);
    forall g: Frame | |g.locals| == 4 && g.mem == f.mem && g.locals[0] == f.locals[0]
      ensures Adds(g, if k < size then k else 0, ScanEffect(size)(g))
    {
      ScanAdds(size, g, k);
    }
  }

  lemma ScanIsGood(size: u32, k: u32, c: u32, f: Frame)
    requires |f.locals| == 4 && Fits(f, size) && AlwaysAdds(ScanEffect(size), f, c)
    ensures GoodTurn(ScanEffect(size), 1, k, ScanCode(size), f)
  {
    var g := Turn(ScanEffect(size), 1, k, f);
    TurnsAdd(ScanEffect(size), f, k, c);
    ScanRuns(size, g, []);
    ScanAdds(size, g, FirstIndex(g.mem, g.locals[0], size, Target(size), 0));
  }

  /** The n scans from a cleared sum. */
  lemma OuterLoopRuns(size: u32, n: u32, f: Frame) returns (g: Frame)
    requires |f.locals| == 4 && Fits(f, size) && f.locals[2] == 0
    ensures Runs(LoopN(1, n, ScanCode(size)), f, [], Done(g, []))
    ensures |g.locals| == 4 && g.mem == f.mem && g.locals[2] == n * Contribution(f.mem, f.locals[0], size) % WORD
  {
    var effect := ScanEffect(size);
    var c := Contribution(f.mem, f.locals[0], size);
    ScansAdd(size, f);
    forall k: u32 | k < n ensures GoodTurn(effect, 1, k, ScanCode(size), f) {
      ScanIsGood(size, k, c, f);
    }
    LoopNRuns(effect, 1, n, ScanCode(size), f, []);
    TurnsAdd(effect, f, n, c);
    AddTimesIsProduct(n, c);
    g := Turn(effect, 1, n, f);
  }

  /** The emitted scalar indexOf code ends without a trap, leaves memory as it was, and returns n times the
      index of the first element equal to size - 1, or 0 if there is none, modulo the word size. */
  lemma IndexOfRuns(size: u32, n: u32, arr: u32, mem: seq<Byte>, iter: u32, sum: u32, j: u32) returns (g: Frame)
    requires arr + 16 + 4 * size <= |mem| <= WORD
    ensures Runs(IndexOfCode(size, n), Frame([arr, iter, sum, j], mem), [],
                 Done(g, [n * Contribution(mem, arr, size) % WORD]))
    ensures g.mem == mem
  {
    var f := Frame([arr, iter, sum, j], mem);
    var f0 := SetLocal(f, 2, 0);
    assert f0.locals == [arr, iter, 0, j];
    LoopStarts(2, f, []);
    g := OuterLoopRuns(size, n, f0);
    var total := n * Contribution(mem, arr, size) % WORD;
    RunsSimple(LocalGet(2), g, []);
    assert Simple(LocalGet(2), g, []) == Done(g, [total]);
    RunsBoth([I32Const(0), LocalSet(2)], LoopN(1, n, ScanCode(size)), f, [], f0, [], Done(g, []));
    RunsBoth([I32Const(0), LocalSet(2)] + LoopN(1, n, ScanCode(size)), [LocalGet(2)], f, [], g, [], Done(g, [total]));
  }

  /** What that is in numbers: n times the index of the first element that is size - 1; 0 without such an element. */
  lemma IndexOfFindsLast(size: u32, n: u32, arr: u32, mem: seq<Byte>, iter: u32, sum: u32, j: u32)
    returns (g: Frame, returned: u32)
    requires arr + 16 + 4 * size <= |mem| <= WORD
    ensures Runs(IndexOfCode(size, n), Frame([arr, iter, sum, j], mem), [], Done(g, [returned])) && g.mem == mem
    ensures forall k: nat ::
      (k < size && Element(mem, arr, k) == size - 1 && forall i: nat :: i < k ==> Element(mem, arr, i) != size - 1) ==>
        returned == n * k % WORD
    ensures (forall k: nat :: k < size ==> Element(mem, arr, k) != size - 1) ==> returned == 0
  {
    g := IndexOfRuns(size, n, arr, mem, iter, sum, j);
    var first := FirstIndex(mem, arr, size, Target(size), 0);
    var c := if first < size then first else 0;
    returned := n * c % WORD;
    if size > 0 {
      assert Target(size) == size - 1 by { RemainderUnique(size + WORD - 1, WORD, 1, size - 1); }
      forall k: nat | k < size && Element(mem, arr, k) == size - 1 &&
          (forall i: nat :: i < k ==> Element(mem, arr, i) != size - 1)
        ensures c == k
      {
      }
    }
  }

  /** On the array 0, 1, ..., size - 1 every scan finds the last element. */
  lemma IndexOfCountsUp(size: u32, n: u32, arr: u32, mem: seq<Byte>, iter: u32, sum: u32, j: u32) returns (g: Frame)
    requires 0 < size && arr + 16 + 4 * size <= |mem| <= WORD
    requires forall k: nat :: k < size ==> Element(mem, arr, k) == k
    ensures Runs(IndexOfCode(size, n), Frame([arr, iter, sum, j], mem), [], Done(g, [n * (size - 1) % WORD]))
  {
    var returned;
    g, returned := IndexOfFindsLast(size, n, arr, mem, iter, sum, j);
    assert Element(mem, arr, size - 1) == size - 1;
  }
}
