/** From the text of an expression to its value: reading, code and machine put together. */
module Expressions {
  import opened Bytes
  import opened Bytecode
  import opened Values
  import opened Tables
  import opened Machine
  import opened Syntax
  import opened Semantics
  import opened Fragment
  import opened Balance
  import opened Steps
  import opened Simulation
  import opened Grammar
  import opened Parser
  import opened Rendering

  /** No assignment, no counting, no block call. */
  predicate Pure(e: Expr)
    decreases e, 1
  {
    match e
    case Bin(_, l, r) => Pure(l) && Pure(r)
    case Not(a) => Pure(a)
    case Minus(a) => Pure(a)
    case Foreign(_, _, args) => PureAll(args)
    case Number(_) => true
    case Quoted(_) => true
    case Void => true
    case Ref(_) => true
    case _ => false
  }

  predicate PureAll(args: seq<Expr>)
    decreases args, 0
  {
    args == [] || (Pure(args[0]) && PureAll(args[1..]))
  }

  /** Pure expressions change nothing, call nothing, and need no fuel. */
  lemma {:induction false} PureKeeps(h: Host, fns: map<Name, Fn>, e: Expr, w: World, d: nat, fuel: nat)
    requires Pure(e)
    ensures Calls(e) == {} && !Evaluate(h, fns, e, w, d, fuel).Spent? && !Evaluate(h, fns, e, w, d, fuel).Unspecified?
    ensures Evaluate(h, fns, e, w, d, fuel).Done? ==> Evaluate(h, fns, e, w, d, fuel).w == w
    decreases e, 1
  {
    match e
    case Bin(_, l, r) => PureKeeps(h, fns, l, w, d, fuel); PureKeeps(h, fns, r, w, d, fuel);
    case Not(a) => PureKeeps(h, fns, a, w, d, fuel);
    case Minus(a) => PureKeeps(h, fns, a, w, d, fuel);
    case Foreign(_, _, args) => PureArgsKeep(h, fns, args, w, d, fuel);
    case _ =>
  }

  lemma {:induction false} PureArgsKeep(h: Host, fns: map<Name, Fn>, args: seq<Expr>, w: World, d: nat, fuel: nat)
    requires PureAll(args)
    ensures CallsInArgs(args) == {}
    ensures var o := EvaluateArgs(h, fns, args, w, d, fuel);
            !o.Spent? && !o.Unspecified? && (o.Done? ==> o.w == w)
    decreases args, 0
  {
    hide Evaluate;
    if args != [] {
      PureKeeps(h, fns, args[0], w, d, fuel);
      PureArgsKeep(h, fns, args[1..], w, d, fuel);
    }
  }

  /** Reading the text of a pure expression and running the bytes it is emitted as pushes exactly one
      operand, the value of the tree; the stack below, the variables and the output stay as they were. */
  lemma TextToValue(h: Host, c: Linked, e: Expr, pad: seq<Byte>, ws: seq<Byte>, s: State, w: World)
    returns (n: nat)
    requires Printable(e) && Blank(pad) && Blank(ws) && Pure(e) && Wf(c.p, e)
    requires LinkedOk(h, c) && Holds(c, s, w, s.gl, false)
    requires var text := pad + Render(e, 0, ws);
             Parse(text).Some? ==> At(s.code, s.pc, Emit(h, Parse(text).value))
    ensures var t := Run(h, s, n);
            match Evaluate(h, c.p.fns, e, w, s.gl, 0)
            case Done(i, _) =>
              t.fault.None? && t.pc == s.pc + |Emit(h, e)| && |t.stack| == |s.stack| + 1 &&
              t.stack[..|s.stack|] == s.stack && t.stack[|s.stack|].v == i.v &&
              Represents(t.vars, w.vars) && t.out == s.out && t.gl == s.gl && !t.skip
            case Fail(f) => t.fault == Some(f)
            case _ => false
  {
    hide Render, Run, Represents, LinkedOk, Compile, Inert;
    RoundTrip(e, pad, ws);
    ExprInert(h, c.p, e);
    Encodes(h, e, s.code, s.pc);
    PureKeeps(h, c.p.fns, e, w, s.gl, 0);
    var left, top;
    assert s.stack + [] == s.stack;
    n, left, top := SimExpr(h, c, e, s, w, 0, s.stack, []);
  }

  lemma Encodes(h: Host, e: Expr, code: seq<Byte>, pc: nat)
    requires Inert(Compile(h, e)) && At(code, pc, Emit(h, e))
    ensures Has(code, pc, Compile(h, e)) && Len(Compile(h, e)) == |Emit(h, e)|
  {
    hide Compile, At;
    FlattenHas(code, pc, Compile(h, e));
  }
}
