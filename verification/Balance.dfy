/** Emitted code is balanced: its braces match and nest no deeper than its tree. */
module Balance {
  import opened Bytes
  import opened Bytecode
  import opened Values
  import opened Syntax
  import opened Skipping
  import opened Fragment

  lemma BalancedConcat(a: seq<Instr>, b: seq<Instr>, d: nat)
    requires Balanced(a, d) && Balanced(b, d)
    ensures Balanced(a + b, d)
  {
    forall k {:trigger Scan(a + b, k)} | 1 <= k && k + d <= 255 ensures Scan(a + b, k) == Some(k) {
      ScanConcat(a, b, k);
      assert Scan(a, k) == Some(k) && Scan(b, k) == Some(k);
    }
  }

  lemma BalancedBraced(body: seq<Instr>, d: nat)
    requires Balanced(body, d)
    ensures Balanced(Braced(body), d + 1)
  {
    var open, close := [Op(BLOCK_START)], [Op(BLOCK_END)];
    forall k {:trigger Scan(Braced(body), k)} | 1 <= k && k + d + 1 <= 255
      ensures Scan(Braced(body), k) == Some(k)
    {
      ScanConcat(open + body, close, k);
      ScanConcat(open, body, k);
      assert Scan(open, k) == Some(k + 1) && Scan(body, k + 1) == Some(k + 1) && Scan(close, k + 1) == Some(k);
    }
  }

  lemma BalancedMore(ins: seq<Instr>, d: nat, e: nat)
    requires Balanced(ins, d) && d <= e
    ensures Balanced(ins, e)
  {
  }

  /** Neither a brace nor the instruction that ignores skip mode. */
  predicate InertInstr(i: Instr) {
    i != Op(BLOCK_START) && i != Op(BLOCK_END) && !(i.Tok? && i.code == ADD_ELEM)
  }

  ghost predicate Inert(ins: seq<Instr>) {
    forall i :: i in ins ==> InertInstr(i) && Encodable(i)
  }

  ghost predicate AllEncodable(ins: seq<Instr>) {
    forall i :: i in ins ==> Encodable(i)
  }

  lemma InertConcat(a: seq<Instr>, b: seq<Instr>)
    requires Inert(a) && Inert(b)
    ensures Inert(a + b)
  {
  }

  lemma {:induction false} InertBalanced(ins: seq<Instr>, d: nat)
    requires Inert(ins)
    ensures Balanced(ins, d)
    decreases |ins|
  {
    if ins != [] {
      assert ins[0] in ins;
      InertBalanced(ins[1..], d);
      forall k {:trigger Scan(ins, k)} | 1 <= k && k + d <= 255 ensures Scan(ins, k) == Some(k) {
        assert Scan(ins[1..], k) == Some(k);
      }
    }
  }

  /** Expressions are emitted without braces. */
  lemma {:induction false} ExprInert(h: Host, p: Prog, e: Expr)
    requires Wf(p, e)
    ensures Inert(Compile(h, e))
    decreases e, 1
  {
    hide Inert;
    match e
    case Number(t) => OneInert(Dbl(h.strtod(t)));
    case Quoted(t) => OneInert(Text(AS_STRING, t));
    case Void => OneInert(Op(AS_VOID));
    case Ref(x) => OneInert(Tok(AS_VAR, x));
    case Bin(op, l, r) =>
      ExprInert(h, p, l);
      ExprInert(h, p, r);
      InertThen(Compile(h, l), Compile(h, r), Op(OpCode(op)));
    case Not(a) => ExprInert(h, p, a); InertThen(Compile(h, a), [], Op(INVERT));
    case Minus(a) => ExprInert(h, p, a); InertThen(Compile(h, a), [], Op(UNARY_MINUS));
    case Bump(up, a) => ExprInert(h, p, a); InertThen(Compile(h, a), [], Op(if up then INCR else DECR));
    case Assign(l, r) =>
      ExprInert(h, p, l);
      ExprInert(h, p, r);
      InertThen(Compile(h, l), Compile(h, r), Op(SET));
    case Call(_, _) => AppliedInert(h, p, e);
    case Foreign(_, _, _) => AppliedInert(h, p, e);
  }

  lemma {:induction false} AppliedInert(h: Host, p: Prog, e: Expr)
    requires Wf(p, e) && (e.Call? || e.Foreign?)
    ensures Inert(Compile(h, e))
    decreases e, 0
  {
    hide Inert, CompileArgs;
    match e
    case Call(f, args) =>
      ArgsInert(h, p, args);
      var a := if |args| > 0 then Rev(|args| % 256) else Op(IDLE);
      InertThen(CompileArgs(h, args), [], a);
      InertThen(CompileArgs(h, args) + [a], [], Tok(CALL, f));
      assert CompileArgs(h, args) + CallCode(|args|, f) == CompileArgs(h, args) + [a] + [Tok(CALL, f)];
    case Foreign(lib, fn, args) =>
      ArgsInert(h, p, args);
      InertThen(CompileArgs(h, args), [], Xcall(lib, fn, |args| % 256));
  }

  lemma OneInert(i: Instr)
    requires InertInstr(i) && Encodable(i)
    ensures Inert([i])
  {
  }

  lemma InertThen(a: seq<Instr>, b: seq<Instr>, i: Instr)
    requires Inert(a) && (b == [] || Inert(b))
    requires InertInstr(i) && Encodable(i)
    ensures Inert(a + b + [i]) && Inert(a + [i] + b)
    ensures b == [] ==> a + b + [i] == a + [i]
  {
    if b == [] { assert a + b == a; }
  }

  lemma {:induction false} ArgsInert(h: Host, p: Prog, args: seq<Expr>)
    requires WfArgs(p, args) || (exists e :: WfRest(p, e, args))
    ensures Inert(CompileArgs(h, args))
    decreases args, 0
  {
    hide Compile;
    if args != [] {
      ExprInert(h, p, args[0]);
      assert WfRest(p, args[0], args[1..]);
      ArgsInert(h, p, args[1..]);
      InertConcat(Compile(h, args[0]), CompileArgs(h, args[1..]));
    }
  }

  lemma {:induction false} GuardBalanced(h: Host, p: Prog, op: Byte, c: Expr, d: nat)
    requires Wf(p, c) && (op == IF || op == WHILE)
    ensures Balanced(Guard(h, op, c), d) && AllEncodable(Guard(h, op, c))
  {
    ExprInert(h, p, c);
    InertBalanced(Guard(h, op, c), d);
  }

  /** The code of a statement list nests exactly within the braces its tree shows. */
  lemma {:induction false} StmtBalanced(h: Host, p: Prog, s: Stmt)
    requires WfStmt(p, s)
    ensures Balanced(CompileStmt(h, s), NestOne(s)) && AllEncodable(CompileStmt(h, s))
    decreases s, 1
  {
    hide Balanced, Compile;
    match s
    case Declare(x) => OneInert(Tok(VAR, x)); InertBalanced(CompileStmt(h, s), 0);
    case Define(x, e) =>
      ExprInert(h, p, e);
      InertThen(Compile(h, e), [], Tok(VARX, x));
      InertBalanced(CompileStmt(h, s), 0);
    case Eval(e) => EvalInert(h, p, e); InertBalanced(CompileStmt(h, s), 0);
    case If(c, yes) =>
      BranchBalanced(h, p, IF, c, yes, NestOne(s));
    case IfElse(c, yes, no) =>
      var d := NestOne(s);
      BranchBalanced(h, p, IF, c, yes, d);
      StmtsBalanced(h, p, no);
      BalancedBraced(CompileStmts(h, no), Nest(no));
      BalancedMore(Braced(CompileStmts(h, no)), Nest(no) + 1, d);
      OneInert(Op(ELSE));
      InertBalanced([Op(ELSE)], d);
      BalancedConcat([Op(ELSE)], Braced(CompileStmts(h, no)), d);
      BalancedConcat(Guard(h, IF, c) + Braced(CompileStmts(h, yes)), [Op(ELSE)] + Braced(CompileStmts(h, no)), d);
    case While(c, body) =>
      BranchBalanced(h, p, WHILE, c, body, NestOne(s));
  }

  lemma EvalInert(h: Host, p: Prog, e: Expr)
    requires WfStmt(p, Eval(e))
    ensures Inert(Compile(h, e))
  {
    if e.Print? {
      ExprInert(h, p, e.e);
      InertThen(Compile(h, e.e), [], Op(PRINT));
    } else {
      ExprInert(h, p, e);
    }
  }

  lemma {:induction false} BranchBalanced(h: Host, p: Prog, op: Byte, c: Expr, ss: seq<Stmt>, d: nat)
    requires Wf(p, c) && WfStmts(p, ss) && (op == IF || op == WHILE) && Nest(ss) + 1 <= d
    ensures Balanced(Guard(h, op, c) + Braced(CompileStmts(h, ss)), d)
    ensures AllEncodable(Guard(h, op, c) + Braced(CompileStmts(h, ss)))
    decreases ss, 1
  {
    hide Balanced;
    GuardBalanced(h, p, op, c, d);
    StmtsBalanced(h, p, ss);
    BalancedBraced(CompileStmts(h, ss), Nest(ss));
    BalancedMore(Braced(CompileStmts(h, ss)), Nest(ss) + 1, d);
    BalancedConcat(Guard(h, op, c), Braced(CompileStmts(h, ss)), d);
  }

  lemma {:induction false} StmtsBalanced(h: Host, p: Prog, ss: seq<Stmt>)
    requires WfStmts(p, ss)
    ensures Balanced(CompileStmts(h, ss), Nest(ss)) && AllEncodable(CompileStmts(h, ss))
    decreases ss, 0
  {
    hide CompileStmt;
    if ss == [] {
      assert Inert(CompileStmts(h, ss));
      InertBalanced(CompileStmts(h, ss), 0);
    } else {
      StmtBalanced(h, p, ss[0]);
      StmtsBalanced(h, p, ss[1..]);
      BalancedMore(CompileStmt(h, ss[0]), NestOne(ss[0]), Nest(ss));
      BalancedMore(CompileStmts(h, ss[1..]), Nest(ss[1..]), Nest(ss));
      BalancedConcat(CompileStmt(h, ss[0]), CompileStmts(h, ss[1..]), Nest(ss));
    }
  }

  /** The whole body of a block, parameters and return included. */
  lemma {:induction false} FnBalanced(h: Host, p: Prog, f: Fn)
    requires WfFn(p, f)
    ensures var body := ParamCode(f.params) + CompileStmts(h, f.body) + ReturnCode(h, f.ret);
            Balanced(body, Nest(f.body)) && AllEncodable(body)
  {
    ParamsInert(p, f.params);
    InertBalanced(ParamCode(f.params), Nest(f.body));
    StmtsBalanced(h, p, f.body);
    if f.ret.Some? {
      ExprInert(h, p, f.ret.value);
    }
    assert Inert(ReturnCode(h, f.ret));
    InertBalanced(ReturnCode(h, f.ret), Nest(f.body));
    BalancedConcat(ParamCode(f.params), CompileStmts(h, f.body), Nest(f.body));
    BalancedConcat(ParamCode(f.params) + CompileStmts(h, f.body), ReturnCode(h, f.ret), Nest(f.body));
  }

  lemma {:induction false} ParamsInert(p: Prog, params: seq<Name>)
    requires WfParams(p, params)
    ensures Inert(ParamCode(params))
  {
    if params != [] {
      assert WfName(p, params[0]);
      ParamsInert(p, params[1..]);
    }
  }
}
