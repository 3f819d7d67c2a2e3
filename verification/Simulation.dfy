/** The emitted code computes what the trees mean: every run of the machine follows the recursive semantics. */
module Simulation {
  import opened Bytes
  import opened Bytecode
  import opened Values
  import opened Tables
  import opened Machine
  import opened Syntax
  import opened Semantics
  import opened Fragment
  import opened Steps
  import opened Operands
  import opened Branches
  import opened CallRuns

  // ----- the simulation -----

  lemma {:induction false} SimExpr(h: Host, c: Linked, e: Expr, s: State, w: World, fuel: nat,
                                   base: seq<Operand>, junk: seq<Operand>)
    returns (n: nat, left: seq<Operand>, top: Operand)
    requires LinkedOk(h, c) && Holds(c, s, w, s.gl, false) && Wf(c.p, e)
    requires Has(s.code, s.pc, Compile(h, e)) && s.stack == base + junk
    requires Calls(e) != {} ==> Shielded(base, s.gl as int + 1)
    ensures Evaluated(h, c, e, s, n, fuel, Evaluate(h, c.p.fns, e, w, s.gl, fuel), base, junk, left, top)
    decreases fuel, e, 1
  {
    hide Represents, Run, Has, Kept, FnLinked;
    if e.Number? || e.Quoted? || e.Void? || e.Ref? {
      n, left := 1, junk;
      top := SimLeaf(h, c, e, s, w, fuel, base, junk);
    } else if e.Not? || e.Minus? || e.Bump? {
      EvaluateUnary(h, c.p, e, w, s.gl, fuel);
      HasConcat(s.code, s.pc, Compile(h, e.e), [Op(Operator(e))]);
      var n1, top1;
      n1, left, top1 := SimExpr(h, c, e.e, s, w, fuel, base, junk);
      n, top := SimUnary(h, c, e, s, w, fuel, base, junk, n1, left, top1);
    } else if e.Bin? || e.Assign? {
      n, left, top := SimOperands(h, c, e, s, w, fuel, base, junk);
    } else if e.Call? {
      n, left, top := SimCall(h, c, e, s, w, fuel, base, junk);
    } else {
      HasConcat(s.code, s.pc, CompileArgs(h, e.args), [Xcall(e.lib, e.fn, |e.args| % 256)]);
      var n1, ops;
      n1, left, ops := SimArgs(h, c, e.args, s, w, fuel, base, junk);
      n, top := SimForeign(h, c, e, s, w, fuel, base, junk, n1, left, ops);
    }
  }

  lemma {:induction false} SimOperands(h: Host, c: Linked, e: Expr, s: State, w: World, fuel: nat,
                                       base: seq<Operand>, junk: seq<Operand>)
    returns (n: nat, left: seq<Operand>, top: Operand)
    requires e.Bin? || e.Assign?
    requires LinkedOk(h, c) && Holds(c, s, w, s.gl, false) && Wf(c.p, e)
    requires Has(s.code, s.pc, Compile(h, e)) && s.stack == base + junk
    requires Calls(e) != {} ==> Shielded(base, s.gl as int + 1)
    ensures Evaluated(h, c, e, s, n, fuel, Evaluate(h, c.p.fns, e, w, s.gl, fuel), base, junk, left, top)
    decreases fuel, e, 0
  {
    hide Represents, Run, Has, Kept, FnLinked, Len;
    EvaluatePair(h, c.p, e, w, s.gl, fuel);
    hide Compile, Evaluate;
    HasConcat(s.code, s.pc, Compile(h, e.l) + Compile(h, e.r), [Op(PairOp(e))]);
    HasConcat(s.code, s.pc, Compile(h, e.l), Compile(h, e.r));
    var n1, top1;
    n1, left, top1 := SimExpr(h, c, e.l, s, w, fuel, base, junk);
    var n2, left2, top2 := 0, [], top1;
    var o := Evaluate(h, c.p.fns, e.l, w, s.gl, fuel);
    if o.Done? {
      var pending := base + left + [top1];
      assert pending[|pending| - 1] == top1;
      assert pending + [] == pending;
      n2, left2, top2 := SimExpr(h, c, e.r, Run(h, s, n1), o.w, fuel, pending, []);
    }
    n, top := SimPair(h, c, e, s, w, fuel, base, junk, n1, left, top1, n2, left2, top2);
  }

  lemma {:induction false} SimArgs(h: Host, c: Linked, args: seq<Expr>, s: State, w: World, fuel: nat,
                                   base: seq<Operand>, junk: seq<Operand>)
    returns (n: nat, left: seq<Operand>, ops: seq<Operand>)
    requires LinkedOk(h, c) && Holds(c, s, w, s.gl, false) && WfArgs(c.p, args)
    requires Has(s.code, s.pc, CompileArgs(h, args)) && s.stack == base + junk
    requires CallsInArgs(args) != {} ==> Shielded(base, s.gl as int + 1)
    ensures Gathered(h, c, args, s, n, fuel, EvaluateArgs(h, c.p.fns, args, w, s.gl, fuel), base + left, ops)
    ensures CallsInArgs(args) <= c.p.clean ==> left <= junk
    decreases fuel, args, 1
  {
    hide Represents, Run, Has, Kept, FnLinked, Len, Compile, Evaluate;
    if args == [] {
      n, left, ops := 0, junk, [];
      GatherNone(h, c, s, w, fuel, base + junk);
    } else {
      hide CompileArgs, EvaluateArgs;
      EvaluateArgsMore(h, c.p.fns, args, w, s.gl, fuel);
      HasConcat(s.code, s.pc, Compile(h, args[0]), CompileArgs(h, args[1..]));
      var n1, top;
      n1, left, top := SimExpr(h, c, args[0], s, w, fuel, base, junk);
      var n2, ops2 := 0, [];
      var o := Evaluate(h, c.p.fns, args[0], w, s.gl, fuel);
      if o.Done? {
        n2, ops2 := SimRest(h, c, args[0], args[1..], Run(h, s, n1), o.w, fuel, base + left + [top]);
      } else {
        left := [];
      }
      n, ops := GatherMore(h, c, args, s, w, fuel, base, junk, n1, left, top, n2, ops2);
    }
  }

  lemma {:induction false} SimRest(h: Host, c: Linked, pending: Expr, args: seq<Expr>, s: State, w: World, fuel: nat,
                                   base: seq<Operand>)
    returns (n: nat, ops: seq<Operand>)
    requires LinkedOk(h, c) && Holds(c, s, w, s.gl, false) && WfRest(c.p, pending, args)
    requires Has(s.code, s.pc, CompileArgs(h, args)) && s.stack == base
    requires base != [] && (LeftSafe(c.p, pending) ==> base[|base| - 1].level <= s.gl)
    ensures Gathered(h, c, args, s, n, fuel, EvaluateArgs(h, c.p.fns, args, w, s.gl, fuel), base, ops)
    decreases fuel, args, 0
  {
    hide Represents, Run, Has, Kept, FnLinked, Len, Compile, Evaluate;
    if args == [] {
      n, ops := 0, [];
      GatherNone(h, c, s, w, fuel, base);
    } else {
      hide CompileArgs, EvaluateArgs;
      EvaluateArgsMore(h, c.p.fns, args, w, s.gl, fuel);
      HasConcat(s.code, s.pc, Compile(h, args[0]), CompileArgs(h, args[1..]));
      assert base + [] == base;
      var n1, left, top := SimExpr(h, c, args[0], s, w, fuel, base, []);
      var n2, ops2 := 0, [];
      var o := Evaluate(h, c.p.fns, args[0], w, s.gl, fuel);
      if o.Done? {
        assert left == [];
        n2, ops2 := SimRest(h, c, args[0], args[1..], Run(h, s, n1), o.w, fuel, base + left + [top]);
      } else {
        left := [];
      }
      n, ops := GatherMore(h, c, args, s, w, fuel, base, [], n1, left, top, n2, ops2);
    }
  }

  lemma {:induction false} SimCall(h: Host, c: Linked, e: Expr, s: State, w: World, fuel: nat,
                                   base: seq<Operand>, junk: seq<Operand>)
    returns (n: nat, left: seq<Operand>, top: Operand)
    requires e.Call?
    requires LinkedOk(h, c) && Holds(c, s, w, s.gl, false) && Wf(c.p, e)
    requires Has(s.code, s.pc, Compile(h, e)) && s.stack == base + junk
    requires Shielded(base, s.gl as int + 1)
    ensures Evaluated(h, c, e, s, n, fuel, Evaluate(h, c.p.fns, e, w, s.gl, fuel), base, junk, left, top)
    decreases fuel, e, 0
  {
    hide Represents, Run, Has, Kept, FnLinked, Len, CompileArgs, CallCode, EvaluateArgs, Invoke, CompileStmts;
    assert |e.args| < 256;
    hide WfArgs;
    EvaluateCall(h, c.p.fns, e, w, s.gl, fuel);
    hide Evaluate, Compile;
    HasConcat(s.code, s.pc, CompileArgs(h, e.args), CallCode(|e.args|, e.f));
    var n1, left1, ops := SimArgs(h, c, e.args, s, w, fuel, base, junk);
    n, left, top := n1, left1, Operand(Unset, None, 0);
    var o := EvaluateArgs(h, c.p.fns, e.args, w, s.gl, fuel);
    if o.Done? {
      var t := Run(h, s, n1);
      if e.f !in c.p.fns {
        UnknownBlock(h, c, t, e.f, base + left1, ops);
        RunAdd(h, s, n1, 2);
        n := n1 + 2;
      } else if s.gl < 255 {
        var fn := c.p.fns[e.f];
        var n2 := SimEnter(h, c, t, o.w, e.f, base + left1, ops);
        var v := Run(h, t, n2);
        if fuel == 0 {
          n := n1;
        } else {
          var n3;
          n3, left, top := SimInvoke(h, c, fn, ops, v, o.w, fuel - 1, base, left1, v.retPoint[v.gl], c.blocks[e.f].pos);
          CallDone(h, c, e, s, w, fuel, base, junk, n1, left1, ops, n2, n3, left, top);
          n := n1 + n2 + n3;
        }
      }
    }
  }

  lemma {:induction false} SimInvoke(h: Host, c: Linked, f: Fn, ops: seq<Operand>, v: State, w: World, fuel: nat,
                                     base: seq<Operand>, junk: seq<Operand>, back: nat, pos: nat)
    returns (n: nat, left: seq<Operand>, top: Operand)
    requires LinkedOk(h, c) && WfFn(c.p, f) && Shielded(base, v.gl)
    requires Entered(h, c, f, v, w.(vars := Bind(f.params, ValuesOf(ops), w.vars)), v.gl, back, pos, base + junk)
    ensures Returned(h, c, v, n, fuel, Invoke(h, c.p.fns, f, ValuesOf(ops), w, v.gl, fuel), base, left, top)
    ensures CleanFn(c.p, f) ==> left <= junk
    ensures Invoke(h, c.p.fns, f, ValuesOf(ops), w, v.gl, fuel).Done? ==>
              (if ZeroFn(c.p, f) then top.level == 0 else Decided(c.p) ==> top.level >= v.gl)
    decreases fuel, f, 2
  {
    hide Represents, Run, Has, Kept, FnLinked, Len, FnCode, ParamCode, CompileStmts, Compile, ReturnCode;
    hide ExecuteAll, Evaluate, Bind, WfParams;
    var w0 := w.(vars := Bind(f.params, ValuesOf(ops), w.vars));
    FnParts(h, f, v.code, pos);
    InvokeNone(h, c.p.fns, f, ValuesOf(ops), w, v.gl, fuel);
    hide Invoke;
    var left1;
    n, left1 := SimStmts(h, c, f.body, v, w0, fuel, base, junk);
    left, top := [], Operand(Unset, None, 0);
    var o := ExecuteAll(h, c.p.fns, f.body, w0, v.gl, fuel);
    if o.Done? {
      if f.ret == None {
        ReturnNothing(h);
        left, top := FallsOff(h, c, v, o.w, n, fuel, base, left1);
        n := n + 1;
      } else {
        var e := f.ret.value;
        ReturnParts(h, e, v.code, Run(h, v, n).pc);
        var left2 := ClearsFirst(h, c, v, o.w, n, base, left1);
        n := n + 1;
        var n2, left3, a := SimExpr(h, c, e, Run(h, v, n), o.w, fuel, base, left2);
        var r := Evaluate(h, c.p.fns, e, o.w, v.gl, fuel);
        RunAdd(h, v, n, n2);
        if r.Done? {
          KeptTrans(v, Run(h, v, n), Run(h, v, n + n2), v.gl, v.gl);
          left, top := ReturnsTop(h, c, v, r.w, n + n2, fuel, base, left3, a);
          n := n + n2 + 1;
        } else {
          StoppedLater(h, v, n, n2, fuel, r);
          n := n + n2;
        }
      }
    }
  }

  lemma ReturnNothing(h: Host)
    ensures Len(ReturnCode(h, None)) == 0
  {
  }

  lemma {:induction false} SimStmt(h: Host, c: Linked, st: Stmt, s: State, w: World, fuel: nat,
                                   base: seq<Operand>, junk: seq<Operand>)
    returns (n: nat, left: seq<Operand>)
    requires LinkedOk(h, c) && Holds(c, s, w, s.gl, false) && WfStmt(c.p, st)
    requires Has(s.code, s.pc, CompileStmt(h, st)) && s.stack == base + junk && Shielded(base, s.gl)
    ensures Executed(h, c, s, n, fuel, Execute(h, c.p.fns, st, w, s.gl, fuel), Len(CompileStmt(h, st)), base, left)
    ensures CleanStmt(c.p, st) ==> left <= junk
    decreases fuel, st, 2
  {
    hide Represents, Run, Has, Kept, FnLinked;
    match st
    case Declare(x) =>
      n, left := 1, junk;
      SimDeclare(h, c, x, s, w, fuel, base, junk);
    case Define(x, e) =>
      n, left := SimEval(h, c, st, e, s, w, fuel, base, junk);
    case Eval(e) =>
      n, left := SimEval(h, c, st, if e.Print? then e.e else e, s, w, fuel, base, junk);
    case If(e, yes) =>
      n, left := SimIf(h, c, st, e, yes, s, w, fuel, base, junk);
    case IfElse(e, yes, no) =>
      n, left := SimIfElse(h, c, st, s, w, fuel, base, junk);
    case While(e, body) =>
      n, left := SimWhile(h, c, st, s, w, fuel, base, junk);
  }

  lemma ExecuteBare(h: Host, fns: map<Name, Fn>, e: Expr, w: World, d: nat, fuel: nat)
    requires !e.Print?
    ensures var o := Evaluate(h, fns, e, w, d, fuel);
            Execute(h, fns, Stmt.Eval(e), w, d, fuel) == if o.Done? then Done((), o.w) else o.PropagateFailure()
    ensures CompileStmt(h, Stmt.Eval(e)) == Compile(h, e)
  {
    hide Evaluate;
  }

  lemma {:induction false} SimEval(h: Host, c: Linked, st: Stmt, e: Expr, s: State, w: World, fuel: nat,
                                   base: seq<Operand>, junk: seq<Operand>)
    returns (n: nat, left: seq<Operand>)
    requires (st.Define? && st.e == e) || st == Stmt.Eval(Print(e)) || (st == Stmt.Eval(e) && !e.Print?)
    requires LinkedOk(h, c) && Holds(c, s, w, s.gl, false) && WfStmt(c.p, st)
    requires Has(s.code, s.pc, CompileStmt(h, st)) && s.stack == base + junk && Shielded(base, s.gl)
    ensures Executed(h, c, s, n, fuel, Execute(h, c.p.fns, st, w, s.gl, fuel), Len(CompileStmt(h, st)), base, left)
    ensures CleanStmt(c.p, st) ==> left <= junk
    decreases fuel, st, 1
  {
    hide Represents, Run, Has, Kept, FnLinked, Len;
    assert Wf(c.p, e) && (st.Define? ==> st.x in c.p.names);
    assert CleanStmt(c.p, st) ==> Calls(e) <= c.p.clean;
    hide Wf, Calls, Evaluate, Compile;
    if st == Stmt.Eval(e) {
      ExecuteBare(h, c.p.fns, e, w, s.gl, fuel);
      hide CompileStmt, Execute;
      var left1, top;
      n, left1, top := SimExpr(h, c, e, s, w, fuel, base, junk);
      left := left1 + [top];
      assert base + left1 + [top] == base + left;
    } else {
      CompileUse(h, st, e);
      hide CompileStmt, Execute;
      HasConcat(s.code, s.pc, Compile(h, e), [if st.Define? then Tok(VARX, st.x) else Op(PRINT)]);
      var n1, top;
      n1, left, top := SimExpr(h, c, e, s, w, fuel, base, junk);
      n := SimUse(h, c, st, e, s, w, fuel, base, junk, n1, left, top);
      if !Evaluate(h, c.p.fns, e, w, s.gl, fuel).Done? {
        left := [];
        ExecuteUse(h, c.p.fns, st, e, w, s.gl, fuel);
      }
    }
  }

  /** A condition, from its opening instruction to CEIT. */
  lemma {:induction false} SimCondition(h: Host, c: Linked, op: Byte, e: Expr, s: State, w: World, fuel: nat,
                                        base: seq<Operand>, junk: seq<Operand>)
    returns (n: nat, left: seq<Operand>)
    requires op == IF || op == WHILE
    requires LinkedOk(h, c) && Holds(c, s, w, s.gl, false) && Wf(c.p, e)
    requires Has(s.code, s.pc, Guard(h, op, e)) && s.stack == base + junk && Shielded(base, s.gl)
    ensures Guarded(h, c, op, e, s, n, fuel, Choose(h, c.p.fns, e, w, s.gl, fuel), base, left)
    ensures n >= 1
    ensures Calls(e) <= c.p.clean && Choose(h, c.p.fns, e, w, s.gl, fuel).Done? ==> left <= junk
    decreases fuel, e, 2
  {
    hide Represents, Run, Has, Kept, FnLinked, Len, Guard, Wf, Calls, Evaluate, Compile, Guarded;
    n, left := 1, [];
    if s.gl < 255 {
      GuardParts(h, op, e, s.code, s.pc);
      EnterGuard(h, c, op, s, w);
      var n1, top;
      n1, left, top := SimExpr(h, c, e, Run(h, s, 1), w, fuel, base, junk);
      n := SimGuard(h, c, op, e, s, w, fuel, base, junk, n1, left, top);
    } else {
      NoGuard(h, c, op, e, s, n, w, fuel, base, left);
    }
  }

  lemma NoGuard(h: Host, c: Linked, op: Byte, e: Expr, s: State, n: nat, w: World, fuel: nat,
                base: seq<Operand>, left: seq<Operand>)
    requires s.gl == 255
    ensures Guarded(h, c, op, e, s, n, fuel, Choose(h, c.p.fns, e, w, s.gl, fuel), base, left)
  {
  }

  /** A block of a statement, from its opening brace on. */
  lemma {:induction false} SimBraced(h: Host, c: Linked, ss: seq<Stmt>, t: State, w: World, fuel: nat,
                                     base: seq<Operand>, junk: seq<Operand>)
    returns (n: nat, left: seq<Operand>)
    requires LinkedOk(h, c) && t.gl > 0 && Holds(c, t, w, t.gl, false) && WfStmts(c.p, ss)
    requires Has(t.code, t.pc, Braced(CompileStmts(h, ss))) && t.stack == base + junk
    requires t.runFlag[t.gl] != RUN_BLOCK && Shielded(base, t.gl as int - 1)
    ensures Looped(h, c, ss, t, n, fuel, ExecuteAll(h, c.p.fns, ss, w, t.gl, fuel), base, left)
    ensures CleanStmts(c.p, ss) ==> left <= junk
    decreases fuel, ss, 1
  {
    hide Represents, Run, Has, Kept, FnLinked, Len, Braced, CompileStmts, WfStmts, CleanStmts, ExecuteAll, Executed;
    BracedParts(t.code, t.pc, CompileStmts(h, ss));
    StepOpen(h, t);
    var n1, left1 := SimStmts(h, c, ss, Run(h, t, 1), w, fuel, base, junk);
    n, left := SimBody(h, c, ss, t, w, fuel, base, n1, left1);
  }

  /** The condition held after n0 steps: the first block runs. */
  lemma {:induction false} SimTaken(h: Host, c: Linked, e: Expr, yes: seq<Stmt>, s: State, w: World, fuel: nat,
                                    base: seq<Operand>, junk: seq<Operand>, n0: nat)
    returns (n: nat, left: seq<Operand>)
    requires LinkedOk(h, c) && WfStmts(c.p, yes) && Shielded(base, s.gl)
    requires s.code == c.code && Has(s.code, s.pc, CompileStmt(h, If(e, yes)))
    requires var o := Choose(h, c.p.fns, e, w, s.gl, fuel);
             o.Done? && o.value && Guarded(h, c, IF, e, s, n0, fuel, o, base, junk)
    ensures Branched(h, c, e, yes, s, w, n, fuel, base, left)
    ensures CleanStmts(c.p, yes) ==> left <= junk
    decreases fuel, yes, 2
  {
    hide Represents, Run, Has, Kept, FnLinked, Len, Guard, Braced, CompileStmts, Choose, ExecuteAll, WfStmts;
    hide CleanStmts;
    IfParts(h, e, yes, s.code, s.pc);
    hide CompileStmt, Execute, Branched;
    var o := Choose(h, c.p.fns, e, w, s.gl, fuel);
    var n2;
    n2, left := SimBraced(h, c, yes, Run(h, s, n0), o.w, fuel, base, junk);
    IfTrue(h, c, e, yes, s, w, n0, fuel, base, junk, n2, left);
    n := n0 + n2;
  }

  /** The condition, and the first block when it is taken. */
  lemma {:induction false} SimIf(h: Host, c: Linked, st: Stmt, e: Expr, yes: seq<Stmt>, s: State, w: World, fuel: nat,
                                 base: seq<Operand>, junk: seq<Operand>)
    returns (n: nat, left: seq<Operand>)
    requires st == If(e, yes) || (st.IfElse? && st.c == e && st.yes == yes)
    requires LinkedOk(h, c) && Holds(c, s, w, s.gl, false) && WfStmt(c.p, st)
    requires Has(s.code, s.pc, CompileStmt(h, If(e, yes))) && s.stack == base + junk && Shielded(base, s.gl)
    ensures Branched(h, c, e, yes, s, w, n, fuel, base, left)
    ensures CleanStmt(c.p, st) ==> left <= junk
    decreases fuel, st, 0
  {
    hide Represents, Run, Has, Kept, FnLinked, Len, Guard, Braced;
    assert Wf(c.p, e) && WfStmts(c.p, yes) && Nest(yes) < 255;
    assert CleanStmt(c.p, st) ==> Calls(e) <= c.p.clean && CleanStmts(c.p, yes);
    hide Nest, CleanStmts, WfStmt, CleanStmt, Wf, WfStmts, Calls, Evaluate, Compile, CompileStmts, ExecuteAll;
    IfParts(h, e, yes, s.code, s.pc);
    ExecuteIf(h, c.p.fns, e, yes, w, s.gl, fuel);
    hide CompileStmt, Execute, Choose;
    n, left := SimCondition(h, c, IF, e, s, w, fuel, base, junk);
    var o := Choose(h, c.p.fns, e, w, s.gl, fuel);
    if !o.Done? {
      left := [];
    } else if o.value {
      n, left := SimTaken(h, c, e, yes, s, w, fuel, base, left, n);
    } else {
      n := IfFalse(h, c, e, yes, s, w, n, fuel, base, left);
    }
  }

  lemma {:induction false} SimIfElse(h: Host, c: Linked, st: Stmt, s: State, w: World, fuel: nat,
                                     base: seq<Operand>, junk: seq<Operand>)
    returns (n: nat, left: seq<Operand>)
    requires st.IfElse?
    requires LinkedOk(h, c) && Holds(c, s, w, s.gl, false) && WfStmt(c.p, st)
    requires Has(s.code, s.pc, CompileStmt(h, st)) && s.stack == base + junk && Shielded(base, s.gl)
    ensures Executed(h, c, s, n, fuel, Execute(h, c.p.fns, st, w, s.gl, fuel), Len(CompileStmt(h, st)), base, left)
    ensures CleanStmt(c.p, st) ==> left <= junk
    decreases fuel, st, 1
  {
    hide Represents, Run, Has, Kept, FnLinked, Len, Guard, Braced, CompileStmts, ExecuteAll, Choose;
    var e, yes, no := st.c, st.yes, st.no;
    ElseParts(h, e, yes, no, s.code, s.pc);
    ExecuteIfElse(h, c.p.fns, e, yes, no, w, s.gl, fuel);
    ExecuteIf(h, c.p.fns, e, yes, w, s.gl, fuel);
    hide CompileStmt, Execute;
    var n1, left1 := SimIf(h, c, st, e, yes, s, w, fuel, base, junk);
    assert WfStmts(c.p, no) && Nest(no) < 255;
    assert CleanStmt(c.p, st) ==> CleanStmts(c.p, no);
    hide WfStmt, CleanStmt, WfStmts;
    var o := Choose(h, c.p.fns, e, w, s.gl, fuel);
    if o.Done? && !o.value {
      var t := Run(h, s, n1);
      StepElse(h, c, t, o.w);
      var n2;
      n2, left := SimBraced(h, c, no, Run(h, t, 1), o.w, fuel, base, left1);
      ElseTaken(h, c, e, yes, no, s, w, n1, fuel, base, left1, n2, left);
      n := n1 + 1 + n2;
    } else {
      left := left1;
      n := ElseSkipped(h, c, e, yes, no, s, w, n1, fuel, base, left);
    }
  }

  lemma {:induction false} SimWhile(h: Host, c: Linked, st: Stmt, s: State, w: World, fuel: nat,
                                    base: seq<Operand>, junk: seq<Operand>)
    returns (n: nat, left: seq<Operand>)
    requires st.While?
    requires LinkedOk(h, c) && Holds(c, s, w, s.gl, false) && WfStmt(c.p, st)
    requires Has(s.code, s.pc, CompileStmt(h, st)) && s.stack == base + junk && Shielded(base, s.gl)
    ensures Executed(h, c, s, n, fuel, Execute(h, c.p.fns, st, w, s.gl, fuel), Len(CompileStmt(h, st)), base, left)
    ensures CleanStmt(c.p, st) ==> left <= junk
    decreases fuel, st, 1
  {
    hide Represents, Run, Has, Kept, FnLinked, Len, Guard, Braced;
    var e, body := st.c, st.body;
    assert Wf(c.p, e) && WfStmts(c.p, body) && Nest(body) < 255;
    assert CleanStmt(c.p, st) ==> Calls(e) <= c.p.clean && CleanStmts(c.p, body);
    hide Wf, WfStmts, Calls, Evaluate, Compile, CompileStmts, ExecuteAll;
    WhileParts(h, e, body, s.code, s.pc);
    ExecuteWhile(h, c.p.fns, e, body, w, s.gl, fuel);
    hide CompileStmt, Execute, Choose, Nest, CleanStmts;
    n, left := SimCondition(h, c, WHILE, e, s, w, fuel, base, junk);
    var o := Choose(h, c.p.fns, e, w, s.gl, fuel);
    if !o.Done? {
      left := [];
    } else if !o.value {
      n := WhileEnds(h, c, e, body, s, w, n, fuel, base, left);
    } else {
      n, left := SimRound(h, c, st, s, w, fuel, base, left, n);
    }
  }

  /** The condition held after n0 steps: one round of the body, then the loop again. */
  lemma {:induction false} SimRound(h: Host, c: Linked, st: Stmt, s: State, w: World, fuel: nat,
                                    base: seq<Operand>, junk: seq<Operand>, n0: nat)
    returns (n: nat, left: seq<Operand>)
    requires st.While? && n0 >= 1
    requires LinkedOk(h, c) && Holds(c, s, w, s.gl, false) && WfStmt(c.p, st)
    requires Has(s.code, s.pc, CompileStmt(h, st)) && Shielded(base, s.gl)
    requires var o := Choose(h, c.p.fns, st.c, w, s.gl, fuel);
             o.Done? && o.value && Guarded(h, c, WHILE, st.c, s, n0, fuel, o, base, junk)
    ensures Executed(h, c, s, n, fuel, Execute(h, c.p.fns, st, w, s.gl, fuel), Len(CompileStmt(h, st)), base, left)
    ensures CleanStmt(c.p, st) ==> left <= junk
    decreases fuel, st, 0
  {
    hide Represents, Run, Has, Kept, FnLinked, Len, Guard, Braced;
    var e, body := st.c, st.body;
    assert WfStmts(c.p, body);
    assert CleanStmt(c.p, st) ==> CleanStmts(c.p, body);
    hide CleanStmt, WfStmts, CompileStmts, ExecuteAll, Choose;
    WhileParts(h, e, body, s.code, s.pc);
    ExecuteWhile(h, c.p.fns, e, body, w, s.gl, fuel);
    hide CompileStmt, Execute, WfStmt;
    var o := Choose(h, c.p.fns, e, w, s.gl, fuel);
    var o2 := ExecuteAll(h, c.p.fns, body, o.w, s.gl as int + 1, fuel);
    var n2;
    n2, left := SimBraced(h, c, body, Run(h, s, n0), o.w, fuel, base, junk);
    WhileRound(h, c, e, body, s, w, n0, fuel, base, junk, n2, left);
    n := n0 + n2;
    if o2.Done? && fuel > 0 {
      var n3;
      n3, left := SimWhile(h, c, st, Run(h, s, n), o2.w, fuel - 1, base, left);
      WhileAgain(h, c, e, body, s, w, n, fuel, base, n3, left);
      n := n + n3;
    }
  }

  lemma StmtsMore(h: Host, c: Linked, ss: seq<Stmt>, s: State, w: World, fuel: nat, base: seq<Operand>,
                  n1: nat, left1: seq<Operand>, n2: nat, left: seq<Operand>)
    requires ss != [] && s.code == c.code && Has(s.code, s.pc, CompileStmts(h, ss))
    requires var o := Execute(h, c.p.fns, ss[0], w, s.gl, fuel);
             Executed(h, c, s, n1, fuel, o, Len(CompileStmt(h, ss[0])), base, left1) && o.Done? &&
             Executed(h, c, Run(h, s, n1), n2, fuel, ExecuteAll(h, c.p.fns, ss[1..], o.w, s.gl, fuel),
                      Len(CompileStmts(h, ss[1..])), base, left)
    ensures Executed(h, c, s, n1 + n2, fuel, ExecuteAll(h, c.p.fns, ss, w, s.gl, fuel), Len(CompileStmts(h, ss)),
                     base, left)
  {
    hide Represents, Has, Kept, Run, CompileStmt, Execute;
    HasConcat(s.code, s.pc, CompileStmt(h, ss[0]), CompileStmts(h, ss[1..]));
    hide Len;
    var o := Execute(h, c.p.fns, ss[0], w, s.gl, fuel);
    var o2 := ExecuteAll(h, c.p.fns, ss[1..], o.w, s.gl, fuel);
    assert CompileStmts(h, ss) == CompileStmt(h, ss[0]) + CompileStmts(h, ss[1..]);
    assert ExecuteAll(h, c.p.fns, ss, w, s.gl, fuel) == o2;
    hide CompileStmts, ExecuteAll;
    RunAdd(h, s, n1, n2);
    if o2.Done? {
      KeptTrans(s, Run(h, s, n1), Run(h, s, n1 + n2), s.gl, s.gl);
    }
  }

  /** The first statement and the rest, in the tree and in the code. */
  lemma StmtsParts(h: Host, p: Prog, ss: seq<Stmt>, code: seq<Byte>, pc: nat)
    requires ss != [] && WfStmts(p, ss) && Has(code, pc, CompileStmts(h, ss))
    ensures WfStmt(p, ss[0]) && WfStmts(p, ss[1..])
    ensures CleanStmts(p, ss) ==> CleanStmt(p, ss[0]) && CleanStmts(p, ss[1..])
    ensures Has(code, pc, CompileStmt(h, ss[0]))
    ensures Has(code, pc + Len(CompileStmt(h, ss[0])), CompileStmts(h, ss[1..]))
  {
    hide Has, Len, CompileStmt, WfStmt, CleanStmt;
    HasConcat(code, pc, CompileStmt(h, ss[0]), CompileStmts(h, ss[1..]));
  }

  lemma FirstFails(h: Host, fns: map<Name, Fn>, ss: seq<Stmt>, w: World, d: nat, fuel: nat)
    requires ss != [] && !Execute(h, fns, ss[0], w, d, fuel).Done?
    ensures ExecuteAll(h, fns, ss, w, d, fuel) == Execute(h, fns, ss[0], w, d, fuel)
  {
    hide Execute;
  }

  lemma NoStmts(h: Host, c: Linked, s: State, w: World, fuel: nat, base: seq<Operand>, junk: seq<Operand>)
    requires Holds(c, s, w, s.gl, false) && s.stack == base + junk
    ensures Executed(h, c, s, 0, fuel, ExecuteAll(h, c.p.fns, [], w, s.gl, fuel), Len(CompileStmts(h, [])), base, junk)
  {
    hide Represents;
    KeptAbove(s, s, s.gl);
  }

  lemma {:induction false} SimStmts(h: Host, c: Linked, ss: seq<Stmt>, s: State, w: World, fuel: nat,
                                    base: seq<Operand>, junk: seq<Operand>)
    returns (n: nat, left: seq<Operand>)
    requires LinkedOk(h, c) && Holds(c, s, w, s.gl, false) && WfStmts(c.p, ss)
    requires Has(s.code, s.pc, CompileStmts(h, ss)) && s.stack == base + junk && Shielded(base, s.gl)
    ensures Executed(h, c, s, n, fuel, ExecuteAll(h, c.p.fns, ss, w, s.gl, fuel), Len(CompileStmts(h, ss)), base, left)
    ensures CleanStmts(c.p, ss) ==> left <= junk
    decreases fuel, ss, 0
  {
    hide Represents, Has, Kept, FnLinked, CompileStmt, Execute, WfStmt, CleanStmt, CompileStmts, WfStmts, CleanStmts;
    hide ExecuteAll, Run, Len;
    if ss == [] {
      n, left := 0, junk;
      NoStmts(h, c, s, w, fuel, base, junk);
    } else {
      var first, rest := ss[0], ss[1..];
      StmtsParts(h, c.p, ss, s.code, s.pc);
      var o := Execute(h, c.p.fns, first, w, s.gl, fuel);
      n, left := SimStmt(h, c, first, s, w, fuel, base, junk);
      if o.Done? {
        var n2, left1 := 0, left;
        n2, left := SimStmts(h, c, rest, Run(h, s, n), o.w, fuel, base, left1);
        StmtsMore(h, c, ss, s, w, fuel, base, n, left1, n2, left);
        n := n + n2;
      } else {
        FirstFails(h, c.p.fns, ss, w, s.gl, fuel);
        left := [];
      }
    }
  }
}
