/** Adding functions to a WebAssembly module and finding them again. Function indices count the imported
    functions first (section 2.5.1 of the WebAssembly Core Specification 1.0). */
module SimdModule {
  import opened Options
  import opened Wasm

  datatype Import = FuncImport(name: string) | OtherImport(name: string)
  datatype FuncType = FuncType(name: string, params: nat, results: nat)
  datatype Func = Func(name: string, typeIdx: nat, locals: nat, body: seq<Instr>)
  datatype Export = Export(name: string, index: nat)

  ghost function FuncImports(imports: seq<Import>): nat {
    if imports == [] then 0
    else FuncImports(imports[..|imports| - 1]) + if imports[|imports| - 1].FuncImport? then 1 else 0
  }

  /** The number of positions in the import list at which a function is imported. */
  lemma {:induction false} FuncImportsCount(imports: seq<Import>)
    ensures FuncImports(imports) == |set k | 0 <= k < |imports| && imports[k].FuncImport?|
    ensures FuncImports(imports) == 0 <==> forall k :: 0 <= k < |imports| ==> imports[k].OtherImport?
  {
    var all := set k | 0 <= k < |imports| && imports[k].FuncImport?;
    if imports == [] {
      assert all == {};
    } else {
      var n := |imports| - 1;
      var front := imports[..n];
      var before := set k | 0 <= k < |front| && front[k].FuncImport?;
      FuncImportsCount(front);
      assert all == if imports[n].FuncImport? then before + {n} else before;
      assert forall k :: 0 <= k < n ==> front[k] == imports[k];
    }
  }

  /** The index of the first function named name, or |functions|. */
  ghost function FirstNamed(functions: seq<Func>, name: string, k: nat): (i: nat)
    requires k <= |functions|
    ensures k <= i <= |functions|
    ensures i < |functions| ==> functions[i].name == name
    ensures forall j :: k <= j < i ==> functions[j].name != name
    decreases |functions| - k
  {
    if k == |functions| || functions[k].name == name then k else FirstNamed(functions, name, k + 1)
  }

  class WasmModule {
    var imports: seq<Import>
    var types: seq<FuncType>
    var functions: seq<Func>
    var exports: seq<Export>

    constructor ()
      ensures imports == [] && types == [] && functions == [] && exports == []
    {
      imports, types, functions, exports := [], [], [], [];
    }

    /** The defined function that a function index denotes, if it does not denote an import. */
    ghost function Denoted(index: nat): Option<Func>
      reads this
    {
      var n := FuncImports(imports);
      if n <= index < n + |functions| then Some(functions[index - n]) else None
    }

    /** findFunc; None is the error that it throws. */
    method FindFunc(name: string) returns (r: Option<nat>)
      ensures var i := FirstNamed(functions, name, 0);
        r == if i < |functions| then Some(FuncImports(imports) + i) else None
    {
      var numImports := 0;
      for k := 0 to |imports|
        invariant numImports == FuncImports(imports[..k])
      {
        assert imports[..k + 1][..k] == imports[..k];
        if imports[k].FuncImport? {
          numImports := numImports + 1;
        }
      }
      assert imports[..|imports|] == imports;
      for i := 0 to |functions|
        invariant FirstNamed(functions, name, 0) == FirstNamed(functions, name, i)
      {
        if functions[i].name == name {
          return Some(numImports + i);
        }
      }
      return None;
    }

    /** addFunc: append a type, a function of that type and an export. */
    method AddFunc(name: string, params: nat, results: nat, locals: nat, body: seq<Instr>)
      modifies this`types, this`functions, this`exports
      ensures types == old(types) + [FuncType(name, params, results)]
      ensures functions == old(functions) + [Func(name, |old(types)|, locals, body)]
      ensures exports == old(exports) + [Export(name, |old(functions)|)]
    {
      var typeIdx := |types|;
      types := types + [FuncType(name, params, results)];
      var funcIdx := |functions|;
      functions := functions + [Func(name, typeIdx, locals, body)];
      exports := exports + [Export(name, funcIdx)];
    }

    /** The added function has index FuncImports(imports) + |old(functions)|. Its export carries that index exactly
        when the module imports no function; findFunc gives it exactly when no earlier function has that name, and
        otherwise gives an earlier function of that name. */
    method AddThenFind(name: string, params: nat, results: nat, locals: nat, body: seq<Instr>)
      returns (found: Option<nat>)
      modifies this`types, this`functions, this`exports
      ensures |exports| == |old(exports)| + 1 && exports[|old(exports)|].name == name
      ensures Denoted(FuncImports(imports) + |old(functions)|) == Some(Func(name, |old(types)|, locals, body))
      ensures exports[|old(exports)|].index == FuncImports(imports) + |old(functions)| <==>
              forall k :: 0 <= k < |imports| ==> imports[k].OtherImport?
      ensures found.Some? && Denoted(found.value).Some? && Denoted(found.value).value.name == name
      ensures found.value == FuncImports(imports) + |old(functions)| <==>
              forall i :: 0 <= i < |old(functions)| ==> old(functions)[i].name != name
      ensures found.value <= FuncImports(imports) + |old(functions)|
    {
      AddFunc(name, params, results, locals, body);
      found := FindFunc(name);
      NamedLater(old(functions), functions[|old(functions)|], name);
      FuncImportsCount(imports);
    }
  }

  /** With one imported function, the export of the first function added names the import, while findFunc finds the
      function at index 1. */
  method AnImportShiftsTheIndex(body: seq<Instr>) returns (m: WasmModule, found: Option<nat>)
    ensures fresh(m) && m.imports == [FuncImport("f")] && |m.exports| == 1 && m.exports[0] == Export("g", 0)
    ensures found == Some(1)
    ensures m.Denoted(1) == Some(Func("g", 0, 0, body)) && m.Denoted(m.exports[0].index) == None
  {
    m := new WasmModule();
    m.imports := [FuncImport("f")];
    assert m.imports[..0] == [];
    m.AddFunc("g", 0, 0, 0, body);
    found := m.FindFunc("g");
  }

  lemma {:induction false} NamedFrom(functions: seq<Func>, f: Func, k: nat)
    requires k <= |functions|
    ensures FirstNamed(functions + [f], f.name, k) == FirstNamed(functions, f.name, k)
    decreases |functions| - k
  {
    if k < |functions| && functions[k].name != f.name {
      NamedFrom(functions, f, k + 1);
    }
  }

  lemma NamedLater(functions: seq<Func>, f: Func, name: string)
    requires f.name == name
    ensures FirstNamed(functions + [f], name, 0) == FirstNamed(functions, name, 0)
    ensures FirstNamed(functions, name, 0) == |functions| <==> forall i :: 0 <= i < |functions| ==>
        functions[i].name != name
  {
    NamedFrom(functions, f, 0);
  }
}
