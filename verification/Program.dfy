/** Whole programs: block definitions patch themselves away once, then the main statements run. */
module Program {
  import opened Bytes
  import opened Bytecode
  import opened Values
  import opened Tables
  import opened Machine
  import opened Syntax
  import opened Semantics
  import opened Fragment
  import opened Skipping
  import opened Balance
  import opened Steps
  import opened Operands
  import opened Simulation

  datatype Def = Def(name: Name, fn: Fn)

  /** A program text: definitions first, then statements. */
  datatype Source = Source(defs: seq<Def>, main: seq<Stmt>)

  function DefsCode(h: Host, ds: seq<Def>): (ins: seq<Instr>) {
    if ds == [] then [] else DefCode(h, ds[0].name, ds[0].fn) + DefsCode(h, ds[1..])
  }

  function ProgramCode(h: Host, src: Source): (ins: seq<Instr>) {
    DefsCode(h, src.defs) + CompileStmts(h, src.main)
  }

  // ----- one definition -----

  /** The bytes a definition leaves in its place. */
  ghost predicate PatchedAt(code: seq<Byte>, pc: nat, size: nat) {
    pc + size + 2 <= |code| && code[pc + size + 1] == SKIP && forall k :: pc <= k <= pc + size ==> code[k] == IDLE
  }

  /** A definition rewrites exactly its own bytes. */
  lemma PatchedLocal(code: seq<Byte>, start: nat, size: nat)
    requires start + size + 2 <= |code|
    ensures var p := Patched(code, start, size);
            PatchedAt(p, start, size) &&
            forall k :: 0 <= k < |code| && !(start <= k < start + size + 2) ==> p[k] == code[k]
  {
  }

  lemma DefinesNew(s: State, name: Name)
    requires s.pc <= |s.code| && s.pc >= |name| + 2 && QualifiedName(s, name) !in s.blocks
    ensures var b := Block(QualifiedName(s, name), s.pc, s.thisBlock);
            DefineBlock(s, name) == s.(code := Patched(s.code, s.pc - |name| - 2, |name|),
                                       blocks := s.blocks[b.name := b],
                                       parentBlock := Some(b), skip := true, defMode := true)
  {
    hide Patched, QualifiedName;
  }

  lemma StepDefineBlock(h: Host, s: State, name: Name)
    requires s.fault.None? && !s.skip && Has(s.code, s.pc, [Tok(BLOCK_DEF, name)])
    requires QualifiedName(s, name) !in s.blocks
    ensures s.pc + |name| + 2 <= |s.code|
    ensures var pos, q := s.pc + |name| + 2, QualifiedName(s, name);
            var b := Block(q, pos, s.thisBlock);
            Run(h, s, 1) == s.(pc := pos, code := Patched(s.code, s.pc, |name|), blocks := s.blocks[q := b],
                               parentBlock := Some(b), skip := true, defMode := true)
  {
    hide Run, Has, Step, Patched, ExecOp, DefineBlock, ReadVar, DefineVar, EnterBlock, TakeParam, TakeParamOr,
        CallForeign;
    hide ReverseTop, Decode;
    DefinitionFits(s.code, s.pc, name);
    StepOnce(h, s, Tok(BLOCK_DEF, name));
    DefinesNew(s.(pc := s.pc + |name| + 2), name);
  }

  lemma DefinitionFits(code: seq<Byte>, pc: nat, name: Name)
    requires Has(code, pc, [Tok(BLOCK_DEF, name)])
    ensures Size(Tok(BLOCK_DEF, name)) == |name| + 2 && pc + |name| + 2 <= |code|
  {
    hide Has;
    HasOne(code, pc, Tok(BLOCK_DEF, name));
  }

  /** The first pass over a definition, wherever it happens: the block is recorded at its opening brace
      under the name of the block being run, the definition's own bytes become IDLE and SKIP, and the
      body is passed over. */
  lemma DefineOnce(h: Host, s: State, name: Name, body: seq<Instr>, d: nat)
    returns (n: nat)
    requires s.fault.None? && !s.skip && s.level == 0 && !s.defMode
    requires QualifiedName(s, name) !in s.blocks && d < 255 && Balanced(body, d)
    requires Has(s.code, s.pc, [Tok(BLOCK_DEF, name)]) && Has(s.code, s.pc + |name| + 2, Braced(body))
    ensures n >= 1 && s.pc + |name| + 2 <= |s.code|
    ensures var pos, q := s.pc + |name| + 2, QualifiedName(s, name);
            Run(h, s, n) == s.(pc := pos + Len(Braced(body)), code := Patched(s.code, s.pc, |name|),
                               blocks := s.blocks[q := Block(q, pos, s.thisBlock)], parentBlock := s.thisBlock)
  {
    hide Run, Has, Balanced, Step, Decode, Len, QualifiedName;
    StepDefineBlock(h, s, name);
    var t := Run(h, s, 1);
    PatchedLocal(s.code, s.pc, |name|);
    hide Patched;
    HasLocal(s.code, t.code, s.pc + |name| + 2, Braced(body));
    SkipExactly(h, t, body, d);
    n := 1 + (|body| + 2);
    RunAdd(h, s, 1, |body| + 2);
  }

  lemma {:induction false} PassIdle(h: Host, s: State, m: nat)
    requires s.fault.None? && !s.skip && s.pc + m <= |s.code|
    requires forall k :: s.pc <= k < s.pc + m ==> s.code[k] == IDLE
    ensures Run(h, s, m) == s.(pc := s.pc + m)
    decreases m
  {
    if m > 0 {
      assert Step(h, s) == s.(pc := s.pc + 1);
      hide Step;
      PassIdle(h, s.(pc := s.pc + 1), m - 1);
    }
  }

  lemma PassSkip(h: Host, s: State)
    requires s.fault.None? && !s.skip && s.pc < |s.code| && s.code[s.pc] == SKIP
    ensures Run(h, s, 1) == s.(pc := s.pc + 1, skip := true)
  {
    assert Step(h, s) == s.(pc := s.pc + 1, skip := true);
    hide Step;
    assert Run(h, s, 1) == Run(h, Step(h, s), 0);
  }

  /** Every later pass, in a loop or a repeated call, skips the body exactly and changes nothing else. */
  lemma DefineAgain(h: Host, s: State, size: nat, body: seq<Instr>, d: nat)
    returns (n: nat)
    requires s.fault.None? && !s.skip && s.level == 0 && !s.defMode
    requires PatchedAt(s.code, s.pc, size) && d < 255 && Balanced(body, d)
    requires Has(s.code, s.pc + size + 2, Braced(body))
    ensures Run(h, s, n) == s.(pc := s.pc + size + 2 + Len(Braced(body)))
  {
    hide Run, Has, Balanced, Step, Len;
    PassIdle(h, s, size + 1);
    var t := s.(pc := s.pc + size + 1);
    PassSkip(h, t);
    SkipExactly(h, Run(h, t, 1), body, d);
    n := size + 1 + 1 + (|body| + 2);
    RunAdd(h, s, size + 1, 1);
    RunAdd(h, s, size + 2, |body| + 2);
  }

  /** How a patched definition reads: one IDLE for the opcode, the length and each byte but the last of its
      token, and SKIP. */
  function PatchedCode(size: nat): (ins: seq<Instr>) {
    IdleCode(size + 1) + [Op(SKIP)]
  }

  function IdleCode(n: nat): (ins: seq<Instr>) {
    if n == 0 then [] else [Op(IDLE)] + IdleCode(n - 1)
  }

  lemma {:induction false} IdleReads(code: seq<Byte>, pc: nat, n: nat)
    requires pc + n <= |code| && forall k :: pc <= k < pc + n ==> code[k] == IDLE
    ensures Has(code, pc, IdleCode(n)) && Len(IdleCode(n)) == n && Inert(IdleCode(n))
    decreases n
  {
    if n > 0 {
      IdleReads(code, pc + 1, n - 1);
      assert IdleCode(n)[0] == Op(IDLE) && IdleCode(n)[1..] == IdleCode(n - 1);
    }
  }

  /** A patched definition takes as many bytes as before, in instructions that keep braces balanced: skip mode
      passes over it as exactly as over a definition that has not run yet. */
  lemma PatchedReads(code: seq<Byte>, pc: nat, size: nat, d: nat)
    requires PatchedAt(code, pc, size)
    ensures Has(code, pc, PatchedCode(size)) && Len(PatchedCode(size)) == size + 2 && Balanced(PatchedCode(size), d)
  {
    hide Has, Len, Balanced, IdleCode, Inert;
    IdleReads(code, pc, size + 1);
    OneInert(Op(SKIP));
    InertConcat(IdleCode(size + 1), [Op(SKIP)]);
    InertBalanced(PatchedCode(size), d);
    HasConcat(code, pc, IdleCode(size + 1), [Op(SKIP)]);
    SkipReads(code, pc + size + 1);
  }

  lemma SkipReads(code: seq<Byte>, pc: nat)
    requires pc < |code| && code[pc] == SKIP
    ensures Has(code, pc, [Op(SKIP)]) && Len([Op(SKIP)]) == 1
  {
    assert [Op(SKIP)][1..] == [];
  }

  // ----- all definitions -----

  ghost predicate DistinctDefs(ds: seq<Def>) {
    forall i, j :: 0 <= i < j < |ds| ==> ds[i].name != ds[j].name
  }

  function Fns(ds: seq<Def>): (r: map<Name, Fn>)
    ensures r.Keys == set d | d in ds :: d.name
  {
    if ds == [] then map[] else Fns(ds[1..])[ds[0].name := ds[0].fn]
  }

  ghost predicate WfSource(src: Source, p: Prog) {
    DistinctDefs(src.defs) && p.fns == Fns(src.defs) && WfProg(p) && WfStmts(p, src.main) &&
    forall d :: d in src.defs ==> |d.name| < 256
  }

  /** Every definition in the list has been recorded, and its code is in place. */
  ghost predicate Recorded(h: Host, ds: seq<Def>, s: State) {
    forall d :: d in ds ==> d.name in s.blocks && Has(s.code, s.blocks[d.name].pos, FnCode(h, d.fn))
  }

  lemma DefParts(code: seq<Byte>, pc: nat, name: Name, body: seq<Instr>, rest: seq<Instr>)
    requires Has(code, pc, [Tok(BLOCK_DEF, name)] + body + rest)
    ensures Len([Tok(BLOCK_DEF, name)] + body + rest) == |name| + 2 + Len(body) + Len(rest)
    ensures Has(code, pc, [Tok(BLOCK_DEF, name)]) && Has(code, pc + |name| + 2, body)
    ensures Has(code, pc + |name| + 2 + Len(body), rest)
  {
    hide Has;
    var i := Tok(BLOCK_DEF, name);
    assert Len([i]) == Size(i) == |name| + 2;
    hide Len, Encode;
    HasConcat(code, pc, [i] + body, rest);
    HasConcat(code, pc, [i], body);
  }

  /** From s the machine has passed over code of length len: blocks were added, bytes changed only there. */
  ghost predicate Passed(s: State, t: State, len: nat, names: set<Name>) {
    t == s.(pc := s.pc + len, code := t.code, blocks := t.blocks, parentBlock := t.parentBlock) &&
    |t.code| == |s.code| && t.blocks.Keys == s.blocks.Keys + names &&
    (forall k :: k in s.blocks ==> t.blocks[k] == s.blocks[k]) &&
    (forall k {:trigger t.code[k]} :: 0 <= k < |s.code| && !(s.pc <= k < s.pc + len) ==> t.code[k] == s.code[k])
  }

  lemma PassedTrans(s: State, t: State, u: State, a: nat, b: nat, m: set<Name>, n: set<Name>)
    requires Passed(s, t, a, m) && Passed(t, u, b, n)
    ensures Passed(s, u, a + b, m + n)
  {
    assert s.blocks.Keys + m + n == s.blocks.Keys + (m + n);
  }

  predicate CanDefine(s: State) {
    s.fault.None? && !s.skip && s.level == 0 && !s.defMode && s.thisBlock.None?
  }

  /** One definition at the head of the code is recorded, and its function's code stands where it did. */
  lemma DefineOne(h: Host, p: Prog, d: Def, rest: seq<Instr>, s: State)
    returns (n: nat)
    requires CanDefine(s)
    requires Has(s.code, s.pc, DefCode(h, d.name, d.fn) + rest) && WfFn(p, d.fn) && d.name !in s.blocks
    ensures var t, len := Run(h, s, n), |d.name| + 2 + Len(FnCode(h, d.fn));
            Passed(s, t, len, {d.name}) && Recorded(h, [d], t) && Has(t.code, t.pc, rest) && CanDefine(t) &&
            t.blocks.Keys == s.blocks.Keys + {d.name} && t.blocks[d.name].pos + Len(FnCode(h, d.fn)) == t.pc
  {
    hide Run, Has, Balanced, CompileStmts, ReturnCode, ParamCode, Braced, Len;
    var f, name := d.fn, d.name;
    var body := ParamCode(f.params) + CompileStmts(h, f.body) + ReturnCode(h, f.ret);
    DefParts(s.code, s.pc, name, Braced(body), rest);
    FnBalanced(h, p, f);
    assert Nest(f.body) < 255;
    hide WfFn, Nest;
    n := DefineOnce(h, s, name, body, Nest(f.body));
    var t := Run(h, s, n);
    PatchedLocal(s.code, s.pc, |name|);
    hide Patched;
    HasLocal(s.code, t.code, s.pc + |name| + 2, Braced(body));
    HasLocal(s.code, t.code, t.pc, rest);
  }

  /** Later definitions leave earlier code alone. */
  lemma RecordedStill(h: Host, d: Def, t: State, u: State, len: nat, names: set<Name>)
    requires Recorded(h, [d], t) && Passed(t, u, len, names)
    requires d.name in t.blocks && t.blocks[d.name].pos + Len(FnCode(h, d.fn)) == t.pc
    ensures Recorded(h, [d], u)
  {
    hide Has, FnCode, Len;
    assert d in [d];
    HasLocal(t.code, u.code, t.blocks[d.name].pos, FnCode(h, d.fn));
  }

  function Names(ds: seq<Def>): (r: set<Name>) {
    set d | d in ds :: d.name
  }

  lemma DefineNone(h: Host, s: State, rest: seq<Instr>)
    requires Has(s.code, s.pc, DefsCode(h, []) + rest)
    ensures var t := Run(h, s, 0);
            Passed(s, t, Len(DefsCode(h, [])), Names([])) && Recorded(h, [], t) && Has(t.code, t.pc, rest)
  {
    hide Has;
    assert DefsCode(h, []) + rest == rest;
    assert Len(DefsCode(h, [])) == 0;
    assert Names([]) == {};
    assert s.blocks.Keys + {} == s.blocks.Keys;
  }

  lemma RecordedBoth(h: Host, d: Def, more: seq<Def>, u: State)
    requires Recorded(h, [d], u) && Recorded(h, more, u)
    ensures Recorded(h, [d] + more, u)
    ensures {d.name} + Names(more) == Names([d] + more)
  {
    hide Has, FnCode;
    assert d in [d];
  }

  lemma DefsLen(h: Host, ds: seq<Def>, rest: seq<Instr>, code: seq<Byte>, pc: nat)
    requires ds != [] && Has(code, pc, DefsCode(h, ds) + rest)
    ensures Len(DefsCode(h, ds)) == |ds[0].name| + 2 + Len(FnCode(h, ds[0].fn)) + Len(DefsCode(h, ds[1..]))
    ensures Has(code, pc, DefCode(h, ds[0].name, ds[0].fn) + (DefsCode(h, ds[1..]) + rest))
  {
    hide Has, FnCode;
    var a, b := DefCode(h, ds[0].name, ds[0].fn), DefsCode(h, ds[1..]);
    assert DefsCode(h, ds) == a + b;
    hide DefsCode;
    assert a + b + rest == a + (b + rest);
    HasConcat(code, pc, a + b, rest);
    DefParts(code, pc, ds[0].name, FnCode(h, ds[0].fn), b);
  }

  ghost predicate Defined(h: Host, ds: seq<Def>, rest: seq<Instr>, s: State, t: State) {
    Passed(s, t, Len(DefsCode(h, ds)), Names(ds)) && Recorded(h, ds, t) && Has(t.code, t.pc, rest)
  }

  lemma DefinedBoth(h: Host, d: Def, more: seq<Def>, rest: seq<Instr>, s: State, t: State, u: State)
    requires Has(s.code, s.pc, DefsCode(h, [d] + more) + rest)
    requires Passed(s, t, |d.name| + 2 + Len(FnCode(h, d.fn)), {d.name}) && Recorded(h, [d], t)
    requires d.name in t.blocks && t.blocks[d.name].pos + Len(FnCode(h, d.fn)) == t.pc
    requires Defined(h, more, rest, t, u)
    ensures Defined(h, [d] + more, rest, s, u)
  {
    hide Has, FnCode, DefCode, Passed, Recorded, Names, DefsCode, Len;
    var ds := [d] + more;
    assert ds[0] == d && ds[1..] == more;
    DefsLen(h, ds, rest, s.code, s.pc);
    RecordedStill(h, d, t, u, Len(DefsCode(h, more)), Names(more));
    PassedTrans(s, t, u, |d.name| + 2 + Len(FnCode(h, d.fn)), Len(DefsCode(h, more)), {d.name}, Names(more));
    RecordedBoth(h, d, more, u);
  }

  /** Passing over the definitions records each of them once; code behind them is untouched. */
  lemma {:induction false} DefineAll(h: Host, p: Prog, ds: seq<Def>, rest: seq<Instr>, s: State)
    returns (n: nat)
    requires CanDefine(s)
    requires Has(s.code, s.pc, DefsCode(h, ds) + rest) && DistinctDefs(ds)
    requires forall d :: d in ds ==> WfFn(p, d.fn) && d.name !in s.blocks
    ensures Defined(h, ds, rest, s, Run(h, s, n))
    decreases |ds|
  {
    hide Run, Has, FnCode, WfFn, DefCode, Passed, Recorded;
    if ds == [] {
      n := 0;
      DefineNone(h, s, rest);
    } else {
      var d, more := ds[0], ds[1..];
      assert ds == [d] + more;
      DefsLen(h, ds, rest, s.code, s.pc);
      hide DefsCode, Len;
      n := DefineOne(h, p, d, DefsCode(h, more) + rest, s);
      var t := Run(h, s, n);
      var m := DefineAll(h, p, more, rest, t);
      RunAdd(h, s, n, m);
      DefinedBoth(h, d, more, rest, s, t, Run(h, t, m));
      n := n + m;
    }
  }

  // ----- the whole program -----

  /** What the main statements mean, starting from no variables and no output. */
  function Meaning(h: Host, src: Source, fuel: nat): (o: Outcome<()>) {
    ExecuteAll(h, Fns(src.defs), src.main, World(map[], []), 0, fuel)
  }

  function Initial(h: Host, src: Source): (s: State) {
    Start(Flatten(ProgramCode(h, src)))
  }

  lemma {:induction false} FnsAt(ds: seq<Def>, f: Name)
    returns (d: Def)
    requires DistinctDefs(ds) && f in Fns(ds)
    ensures d in ds && d.name == f && d.fn == Fns(ds)[f]
  {
    if ds[0].name == f {
      d := ds[0];
    } else {
      d := FnsAt(ds[1..], f);
    }
  }

  lemma {:induction false} FnsOf(ds: seq<Def>, d: Def)
    requires DistinctDefs(ds) && d in ds
    ensures d.name in Fns(ds) && Fns(ds)[d.name] == d.fn
  {
    if d != ds[0] {
      assert d in ds[1..];
      FnsOf(ds[1..], d);
      var j :| 0 <= j < |ds| && ds[j] == d;
    }
  }

  lemma {:induction false} DefsEncodable(h: Host, p: Prog, ds: seq<Def>)
    requires forall d :: d in ds ==> WfFn(p, d.fn) && |d.name| < 256
    ensures AllEncodable(DefsCode(h, ds))
  {
    if ds != [] {
      var f := ds[0].fn;
      assert ds[0] in ds;
      FnBalanced(h, p, f);
      DefsEncodable(h, p, ds[1..]);
      var body := ParamCode(f.params) + CompileStmts(h, f.body) + ReturnCode(h, f.ret);
      hide ParamCode, CompileStmts, ReturnCode, WfFn, Balanced;
      assert AllEncodable(Braced(body));
      assert DefCode(h, ds[0].name, f) == [Tok(BLOCK_DEF, ds[0].name)] + Braced(body);
    }
  }

  lemma WfDefs(src: Source, p: Prog)
    requires WfSource(src, p)
    ensures forall d :: d in src.defs ==> WfFn(p, d.fn) && |d.name| < 256
  {
    hide WfFn;
    forall d | d in src.defs ensures WfFn(p, d.fn) && |d.name| < 256 {
      FnsOf(src.defs, d);
    }
  }

  lemma CodeInPlace(h: Host, src: Source, p: Prog)
    requires WfStmts(p, src.main) && forall d :: d in src.defs ==> WfFn(p, d.fn) && |d.name| < 256
    ensures var s, ins := Initial(h, src), ProgramCode(h, src);
            Has(s.code, 0, ins) && Len(ins) + 1 == |s.code| && s.code[Len(ins)] == IDLE
  {
    hide WfFn;
    DefsEncodable(h, p, src.defs);
    StmtsBalanced(h, p, src.main);
    hide DefsCode, CompileStmts, Balanced;
    var ins := ProgramCode(h, src);
    FlattenHas(Initial(h, src).code, 0, ins);
  }

  lemma SourceInPlace(h: Host, src: Source, p: Prog)
    requires WfSource(src, p)
    ensures var s, ins := Initial(h, src), ProgramCode(h, src);
            Has(s.code, 0, ins) && Len(ins) + 1 == |s.code| && s.code[Len(ins)] == IDLE
  {
    hide WfFn, WfStmts, Has, Len, Flatten, DefsCode, CompileStmts;
    WfDefs(src, p);
    CodeInPlace(h, src, p);
  }

  lemma EmptyHolds(h: Host, c: Linked, s: State)
    requires CanDefine(s) && s.code == c.code && s.blocks == c.blocks && s.gl == 0 && s.out == []
    requires s.vars == Tables.Empty(1000)
    ensures Holds(c, s, World(map[], []), 0, false)
  {
    EmptyRepresents<Value>(1000);
    hide Represents;
  }

  lemma DefinitionsLinked(h: Host, src: Source, p: Prog, s: State, t: State, rest: seq<Instr>)
    requires WfSource(src, p) && s.blocks == map[] && Defined(h, src.defs, rest, s, t)
    ensures LinkedOk(h, Linked.Linked(p, t.code, t.blocks))
  {
    hide Has, FnCode, WfProg;
    var c := Linked.Linked(p, t.code, t.blocks);
    forall f | f in p.fns ensures FnLinked(h, c, f) {
      var d := FnsAt(src.defs, f);
    }
    assert p.fns.Keys == Names(src.defs);
  }

  ghost predicate Reached(h: Host, src: Source, n: nat, fuel: nat) {
    var o, t := Meaning(h, src, fuel), Run(h, Initial(h, src), n);
    match o
    case Done(_, w) => Halted(t) && t.fault.None? && t.gl == 0 && !t.skip && t.out == w.out &&
        Represents(t.vars, w.vars)
    case Fail(f) => t.fault == Some(f)
    case Spent => n >= fuel && !Halted(t)
    case Unspecified => true
  }

  /** Running a program from the first byte of its code does what the program means: it ends with the
      same variables and output, or with the same error, or it is still running after as many steps as
      the meaning was given fuel. */
  lemma ProgramRuns(h: Host, src: Source, p: Prog, fuel: nat)
    returns (n: nat)
    requires WfSource(src, p)
    ensures Reached(h, src, n, fuel)
  {
    hide Run, Has, WfProg, WfStmts, CompileStmts, DefsCode, ExecuteAll, Represents, Flatten, Passed, Len;
    var s, main := Initial(h, src), CompileStmts(h, src.main);
    SourceInPlace(h, src, p);
    WfDefs(src, p);
    hide WfFn;
    n := DefineAll(h, p, src.defs, main, s);
    var t := Run(h, s, n);
    n := MainRuns(h, src, p, fuel, n);
  }

  /** After the definitions: everything is linked, and the machine stands before the main statements. */
  lemma DefinitionsDone(h: Host, src: Source, p: Prog, t: State)
    requires WfSource(src, p)
    requires Defined(h, src.defs, CompileStmts(h, src.main), Initial(h, src), t)
    ensures var c := Linked.Linked(p, t.code, t.blocks);
            LinkedOk(h, c) && Holds(c, t, World(map[], []), 0, false) && t.stack == [] &&
            Has(t.code, t.pc, CompileStmts(h, src.main)) &&
            t.pc + Len(CompileStmts(h, src.main)) + 1 == |t.code| && t.code[|t.code| - 1] == IDLE
  {
    hide Run, WfProg, WfStmts, CompileStmts, DefsCode, ExecuteAll, Represents, Flatten;
    var s, main := Initial(h, src), CompileStmts(h, src.main);
    SourceInPlace(h, src, p);
    HasConcat(s.code, 0, DefsCode(h, src.defs), main);
    hide Has, Len;
    DefinitionsLinked(h, src, p, s, t, main);
    EmptyHolds(h, Linked.Linked(p, t.code, t.blocks), t);
  }

  lemma MainRuns(h: Host, src: Source, p: Prog, fuel: nat, n0: nat)
    returns (n: nat)
    requires WfSource(src, p)
    requires Defined(h, src.defs, CompileStmts(h, src.main), Initial(h, src), Run(h, Initial(h, src), n0))
    ensures Reached(h, src, n, fuel)
  {
    hide Run, WfProg, WfStmts, CompileStmts, DefsCode, ExecuteAll, Represents, Flatten, Has, Len, LinkedOk, Defined;
    var s := Initial(h, src);
    var t := Run(h, s, n0);
    DefinitionsDone(h, src, p, t);
    var c := Linked.Linked(p, t.code, t.blocks);
    assert [] + [] == t.stack;
    var m, left := SimStmts(h, c, src.main, t, World(map[], []), fuel, [], []);
    hide Start, Initial, WfSource;
    var o := Meaning(h, src, fuel);
    n := n0 + m;
    if o.Done? {
      var u := Run(h, t, m);
      RunAdd(h, s, n0, m);
      PassIdleEnd(h, u);
      RunAdd(h, s, n, 1);
      n := n + 1;
    } else {
      StoppedLater(h, s, n0, m, fuel, o);
    }
  }

  /** Once halted, always halted. */
  lemma {:induction false} HaltedStays(h: Host, s: State, n: nat, m: nat)
    requires n <= m && Halted(Run(h, s, n))
    ensures Run(h, s, m) == Run(h, s, n)
  {
    RunAdd(h, s, n, m - n);
  }

  /** The machine comes to a halt exactly for those programs whose meaning is reached with some fuel. */
  lemma HaltsIffMeaningful(h: Host, src: Source, p: Prog)
    requires WfSource(src, p)
    requires forall fuel {:trigger Meaning(h, src, fuel)} :: !Meaning(h, src, fuel).Unspecified?
    ensures (exists n: nat :: Halted(Run(h, Initial(h, src), n))) <==>
            (exists fuel: nat :: !Meaning(h, src, fuel).Spent?)
  {
    hide Run, Meaning, Initial, WfSource;
    if fuel: nat :| !Meaning(h, src, fuel).Spent? {
      var n := ProgramRuns(h, src, p, fuel);
      assert Halted(Run(h, Initial(h, src), n));
    }
    if n: nat :| Halted(Run(h, Initial(h, src), n)) {
      var m := ProgramRuns(h, src, p, n + 1);
      if Meaning(h, src, n + 1).Spent? {
        HaltedStays(h, Initial(h, src), n, m);
        assert false;
      }
    }
  }

  lemma PassIdleEnd(h: Host, u: State)
    requires u.fault.None? && !u.skip && u.pc + 1 == |u.code| && u.code[u.pc] == IDLE
    ensures Run(h, u, 1) == u.(pc := u.pc + 1) && Halted(Run(h, u, 1))
  {
    PassIdle(h, u, 1);
  }
}
