/** From the characters of an expression to the whole number or text it is worth. */
module Calculation {
  import opened Bytes
  import opened Values
  import opened Tables
  import opened Machine
  import opened Syntax
  import opened Semantics
  import opened Fragment
  import opened Steps
  import opened Grammar
  import opened Parser
  import opened Rendering
  import opened Expressions
  import opened Whole
  import opened Numerals

  /** What the machine has made of an expression: its value on top of an untouched stack, or its error. */
  ghost predicate Computed(dec: Double -> Option<int>, s: State, t: State, a: Answer) {
    match a
    case Known(p) =>
      t.fault.None? && |t.stack| == |s.stack| + 1 && t.stack[..|s.stack|] == s.stack &&
      View(dec, t.stack[|s.stack|].v) == Some(p) && t.out == s.out && t.gl == s.gl && !t.skip
    case Fails(f) => t.fault == Some(f)
    case Open => true
  }

  /** Reading the text of an expression and running its code pushes its value, over variables of any values. */
  lemma TextComputes(h: Host, dec: Double -> Option<int>, c: Linked, e: Expr, pad: seq<Byte>, ws: seq<Byte>, s: State,
                     w: World)
    returns (n: nat)
    requires Exact(h, dec) && Printable(e) && Blank(pad) && Blank(ws) && Pure(e) && Wf(c.p, e)
    requires LinkedOk(h, c) && Holds(c, s, w, s.gl, false)
    requires var text := pad + Render(e, 0, ws);
             Parse(text).Some? ==> At(s.code, s.pc, Emit(h, Parse(text).value))
    ensures Computed(dec, s, Run(h, s, n), ValueOf(Views(dec, w.vars), e))
  {
    hide Exact, Run, Render, Pure, Wf, LinkedOk, Emit, At, Parse, Evaluate, ValueOf, View, Represents;
    n := TextToValue(h, c, e, pad, ws, s, w);
    EvaluateComputes(h, dec, c.p.fns, e, w, s.gl, 0);
  }

  /** How the operators are spelled. */
  function Spelling(op: BinOp): (t: seq<Byte>) {
    match op
    case Or => Ascii("||")
    case And => Ascii("&&")
    case Eq => Ascii("==")
    case Ne => Ascii("!=")
    case Lt => Ascii("<")
    case Le => Ascii("<=")
    case Gt => Ascii(">")
    case Ge => Ascii(">=")
    case Add => Ascii("+")
    case Sub => Ascii("-")
    case Mul => Ascii("*")
    case Div => Ascii("/")
    case Mod => Ascii("%")
    case Pow => Ascii("^")
  }

  lemma SymbolsAreSpelled(op: BinOp)
    ensures Symbol(op) == Spelling(op)
  {
  }

  lemma NumeralRenders(k: nat, lvl: nat, ws: seq<Byte>)
    requires lvl <= 8
    ensures Render(Number(Decimal(k)), lvl, ws) == Decimal(k) && Printable(Number(Decimal(k)))
  {
    hide Decimal, IsNumber;
    DecimalReads(k);
    DigitsAreNumber(Decimal(k));
  }

  lemma PairRenders(op: BinOp, j: nat, k: nat, ws: seq<Byte>)
    ensures var e := Bin(op, Number(Decimal(j)), Number(Decimal(k)));
            Printable(e) && Pure(e) && (forall p :: Wf(p, e)) &&
            Render(e, 0, ws) == Decimal(j) + ws + Spelling(op) + ws + Decimal(k)
  {
    hide Decimal, IsNumber, Symbol, Spelling;
    SymbolsAreSpelled(op);
    NumeralRenders(j, LeftLevel(op), ws);
    NumeralRenders(k, RightLevel(op), ws);
    var l, r := Number(Decimal(j)), Number(Decimal(k));
    assert Calls(l) == {} && Calls(r) == {};
    assert Pure(l) && Pure(r);
    forall p ensures Wf(p, Bin(op, l, r)) {
      assert Wf(p, l) && Wf(p, r) && Above(p, l, r);
    }
  }

  /** Two numbers in decimal notation with the operator's own characters between them: what is pushed is what the
      operator makes of the numbers. */
  lemma TwoNumbers(h: Host, dec: Double -> Option<int>, c: Linked, op: BinOp, j: nat, k: nat, ws: seq<Byte>, s: State,
                   w: World)
    returns (n: nat)
    requires Exact(h, dec) && j <= LIMIT && k <= LIMIT && Blank(ws)
    requires LinkedOk(h, c) && Holds(c, s, w, s.gl, false)
    requires var text := Decimal(j) + ws + Spelling(op) + ws + Decimal(k);
             Parse(text).Some? ==> At(s.code, s.pc, Emit(h, Parse(text).value))
    ensures Computed(dec, s, Run(h, s, n), OnInts(op, j, k))
  {
    hide Exact, Run, Render, Pure, Wf, LinkedOk, Emit, At, Parse, View, Decimal, Spelling, OnInts, Computed, Printable;
    hide Represents;
    PairRenders(op, j, k, ws);
    var e := Bin(op, Number(Decimal(j)), Number(Decimal(k)));
    assert [] + Render(e, 0, ws) == Render(e, 0, ws);
    n := TextComputes(h, dec, c, e, [], ws, s, w);
    DecimalReads(j);
    DecimalReads(k);
  }

  // ----- how operators group -----

  /** How tightly an operator binds. */
  function Strength(op: BinOp): (n: nat) {
    match op
    case Or => 1
    case And => 2
    case Eq => 3
    case Ne => 3
    case Lt => 4
    case Le => 4
    case Gt => 4
    case Ge => 4
    case Add => 5
    case Sub => 5
    case Mul => 6
    case Div => 6
    case Mod => 6
    case Pow => 7
  }

  /** Of two operators in a row the first one is applied first if it binds more tightly, and among equals, but for
      powers, from the left. Equalities and comparisons do not follow one another. */
  predicate FirstFirst(op: BinOp, op': BinOp) {
    Strength(op) > Strength(op') || (Strength(op) == Strength(op') && op != Pow)
  }

  function Grouped(op: BinOp, op': BinOp, j: nat, k: nat, l: nat): (e: Expr) {
    var a, b, c := Number(Decimal(j)), Number(Decimal(k)), Number(Decimal(l));
    if FirstFirst(op, op') then Bin(op', Bin(op, a, b), c) else Bin(op, a, Bin(op', b, c))
  }

  lemma LevelsAreStrengths(op: BinOp)
    ensures Strength(op) == OpLevel(op) + 1 <= 7 && (Strength(op) == 7 <==> op == Pow)
    ensures LeftLevel(op) == if Strength(op) in {3, 4, 7} then Strength(op) else Strength(op) - 1
    ensures RightLevel(op) == if op == Pow then 6 else Strength(op)
  {
  }

  lemma LooseRender(op: BinOp, l: Expr, r: Expr, lvl: nat, ws: seq<Byte>)
    requires lvl <= OpLevel(op)
    ensures Render(Bin(op, l, r), lvl, ws) ==
            Render(l, LeftLevel(op), ws) + ws + Symbol(op) + ws + Render(r, RightLevel(op), ws)
  {
    hide LeftLevel, RightLevel, Symbol;
  }

  lemma LeftChain(op: BinOp, op': BinOp, a: Expr, b: Expr, c: Expr, ws: seq<Byte>)
    requires a.Number? && b.Number? && c.Number? && FirstFirst(op, op')
    requires Strength(op) != Strength(op') || Strength(op) !in {3, 4}
    ensures Render(Bin(op', Bin(op, a, b), c), 0, ws) ==
            a.token + ws + Symbol(op) + ws + b.token + ws + Symbol(op') + ws + c.token
  {
    hide Symbol, OpLevel, LeftLevel, RightLevel, Strength;
    LevelsAreStrengths(op);
    LevelsAreStrengths(op');
    assert Render(a, LeftLevel(op), ws) == a.token && Render(b, RightLevel(op), ws) == b.token;
    assert Render(c, RightLevel(op'), ws) == c.token;
    hide Render;
    LooseRender(op', Bin(op, a, b), c, 0, ws);
    LooseRender(op, a, b, LeftLevel(op'), ws);
  }

  lemma RightChain(op: BinOp, op': BinOp, a: Expr, b: Expr, c: Expr, ws: seq<Byte>)
    requires a.Number? && b.Number? && c.Number? && !FirstFirst(op, op')
    ensures Render(Bin(op, a, Bin(op', b, c)), 0, ws) ==
            a.token + ws + Symbol(op) + ws + b.token + ws + Symbol(op') + ws + c.token
  {
    hide Symbol, OpLevel, LeftLevel, RightLevel, Strength;
    LevelsAreStrengths(op);
    LevelsAreStrengths(op');
    assert Render(a, LeftLevel(op), ws) == a.token && Render(b, LeftLevel(op'), ws) == b.token;
    assert Render(c, RightLevel(op'), ws) == c.token;
    hide Render;
    LooseRender(op, a, Bin(op', b, c), 0, ws);
    LooseRender(op', b, c, RightLevel(op), ws);
    Regroup(a.token, ws, Symbol(op), b.token, Symbol(op'), c.token);
  }

  lemma ChainRenders(op: BinOp, op': BinOp, j: nat, k: nat, l: nat, ws: seq<Byte>)
    requires Strength(op) != Strength(op') || Strength(op) !in {3, 4}
    ensures Render(Grouped(op, op', j, k, l), 0, ws) ==
            Decimal(j) + ws + Spelling(op) + ws + Decimal(k) + ws + Spelling(op') + ws + Decimal(l)
  {
    hide Decimal, Symbol, Spelling, Render, Strength, FirstFirst;
    var a, b, c := Number(Decimal(j)), Number(Decimal(k)), Number(Decimal(l));
    SymbolsAreSpelled(op);
    SymbolsAreSpelled(op');
    if FirstFirst(op, op') { LeftChain(op, op', a, b, c, ws); } else { RightChain(op, op', a, b, c, ws); }
  }

  lemma Regroup(a: seq<Byte>, ws: seq<Byte>, o: seq<Byte>, b: seq<Byte>, p: seq<Byte>, c: seq<Byte>)
    ensures a + ws + o + ws + (b + ws + p + ws + c) == a + ws + o + ws + b + ws + p + ws + c
  {
  }

  lemma ChainFits(op: BinOp, op': BinOp, j: nat, k: nat, l: nat, p: Prog)
    ensures var e := Grouped(op, op', j, k, l); Printable(e) && Pure(e) && Wf(p, e)
  {
    hide Decimal, IsNumber, Strength;
    NumeralRenders(j, 0, []);
    NumeralRenders(k, 0, []);
    NumeralRenders(l, 0, []);
    var a, b, c := Number(Decimal(j)), Number(Decimal(k)), Number(Decimal(l));
    PairFits(op, a, b, p);
    PairFits(op', b, c, p);
    PairFits(op', Bin(op, a, b), c, p);
    PairFits(op, a, Bin(op', b, c), p);
  }

  lemma PairFits(op: BinOp, l: Expr, r: Expr, p: Prog)
    requires Printable(l) && Printable(r) && Pure(l) && Pure(r) && Wf(p, l) && Wf(p, r)
    requires Calls(l) == {} && Calls(r) == {}
    ensures var e := Bin(op, l, r); Printable(e) && Pure(e) && Wf(p, e) && Calls(e) == {}
  {
    assert Above(p, l, r);
  }

  /** Three numbers and two operators, without parentheses: precedence and grouping of every pair of operators. */
  lemma ThreeNumbers(h: Host, dec: Double -> Option<int>, c: Linked, op: BinOp, op': BinOp, j: nat, k: nat, l: nat,
                     ws: seq<Byte>, s: State, w: World)
    returns (n: nat)
    requires Exact(h, dec) && Blank(ws) && (Strength(op) != Strength(op') || Strength(op) !in {3, 4})
    requires LinkedOk(h, c) && Holds(c, s, w, s.gl, false)
    requires var text := Decimal(j) + ws + Spelling(op) + ws + Decimal(k) + ws + Spelling(op') + ws + Decimal(l);
             Parse(text).Some? ==> At(s.code, s.pc, Emit(h, Parse(text).value))
    ensures Computed(dec, s, Run(h, s, n), ValueOf(Views(dec, w.vars), Grouped(op, op', j, k, l)))
  {
    hide Exact, Run, Render, Pure, Wf, LinkedOk, Emit, At, Parse, View, Decimal, Spelling, Computed, Printable;
    hide Strength, Grouped, ValueOf, Represents;
    ChainRenders(op, op', j, k, l, ws);
    ChainFits(op, op', j, k, l, c.p);
    var e := Grouped(op, op', j, k, l);
    assert [] + Render(e, 0, ws) == Render(e, 0, ws);
    n := TextComputes(h, dec, c, e, [], ws, s, w);
  }

  // ----- foreign calls -----

  function NumberTrees(ds: seq<seq<Byte>>): (args: seq<Expr>)
    ensures |args| == |ds|
  {
    seq(|ds|, i requires 0 <= i < |ds| => Number(ds[i]))
  }

  function NumberValues(h: Host, ds: seq<seq<Byte>>): (vs: seq<Value>)
    ensures |vs| == |ds|
  {
    seq(|ds|, i requires 0 <= i < |ds| => Num(h.strtod(ds[i])))
  }

  lemma {:induction false} ArgumentsInOrder(h: Host, fns: map<Name, Fn>, ds: seq<seq<Byte>>, w: World, d: nat,
                                            fuel: nat)
    ensures EvaluateArgs(h, fns, NumberTrees(ds), w, d, fuel) == Done(NumberValues(h, ds), w)
    decreases |ds|
  {
    if ds != [] {
      var args, rest := NumberTrees(ds), ds[1..];
      ArgumentsInOrder(h, fns, rest, w, d, fuel);
      assert args[1..] == NumberTrees(rest);
      assert Evaluate(h, fns, args[0], w, d, fuel) == Done(Item(Num(h.strtod(ds[0])), None), w);
      assert [Num(h.strtod(ds[0]))] + NumberValues(h, rest) == NumberValues(h, ds);
    }
  }

  /** A foreign function is called by its library and its own name, with its arguments from the first to the last. */
  lemma ForeignCall(h: Host, fns: map<Name, Fn>, lib: Name, fn: Name, ds: seq<seq<Byte>>, w: World, d: nat, fuel: nat)
    ensures var r, o := h.foreign(lib, fn, NumberValues(h, ds)),
                Evaluate(h, fns, Foreign(lib, fn, NumberTrees(ds)), w, d, fuel);
            if r.Ok? then o == Done(Item(r.value, None), w) else o == Fail(r.fault)
    ensures Body(Foreign(lib, fn, NumberTrees(ds)), []) == lib + Ascii("::") + fn + Ascii("(") +
            RenderArgs(NumberTrees(ds), []) + Ascii(")")
  {
    ArgumentsInOrder(h, fns, ds, w, d, fuel);
    hide EvaluateArgs, NumberTrees, NumberValues, RenderArgs;
  }
}
