/** Statements, conditions, bodies and loops: the pieces for the simulation of statements. */
module Branches {
  import opened Bytes
  import opened Bytecode
  import opened Values
  import opened Tables
  import opened Machine
  import opened Syntax
  import opened Semantics
  import opened Fragment
  import opened Skipping
  import opened Balance
  import opened Steps
  import opened Operands

  // ----- statements -----

  ghost predicate Executed(h: Host, c: Linked, s: State, n: nat, fuel: nat, o: Outcome<()>, len: nat,
                           base: seq<Operand>, left: seq<Operand>)
  {
    if o.Done? then
      var t := Run(h, s, n);
      Holds(c, t, o.w, s.gl, false) && Kept(s, t, s.gl) && t.pc == s.pc + len && t.stack == base + left
    else Stopped(h, s, n, fuel, o)
  }

  /** Clearing at a level stays within what lies above a shielded base. */
  lemma {:induction false} ClearedShielded(base: seq<Operand>, junk: seq<Operand>, k: Byte)
    returns (left: seq<Operand>)
    requires Shielded(base, k)
    ensures Cleared(base + junk, k) == base + left
    ensures left <= junk && Shielded(base + left, k)
    decreases |junk|
  {
    left := junk;
    if junk == [] {
      assert base + junk == base;
    } else if junk[|junk| - 1].level >= k {
      assert (base + junk)[..|base + junk| - 1] == base + junk[..|junk| - 1];
      left := ClearedShielded(base, junk[..|junk| - 1], k);
    }
  }

  lemma SimDeclare(h: Host, c: Linked, x: Name, s: State, w: World, fuel: nat, base: seq<Operand>, junk: seq<Operand>)
    requires Holds(c, s, w, s.gl, false) && x in c.p.names && s.stack == base + junk
    requires Has(s.code, s.pc, [Tok(VAR, x)])
    ensures Executed(h, c, s, 1, fuel, Execute(h, c.p.fns, Stmt.Declare(x), w, s.gl, fuel),
                     Len(CompileStmt(h, Stmt.Declare(x))), base, junk)
  {
    hide Represents, Run, Has, Step, Tables.Declare;
    StepOnce(h, s, Tok(VAR, x));
    HoldsDeclare(c, s, w, s.gl, false, x);
    assert CompileStmt(h, Stmt.Declare(x)) == [Tok(VAR, x)];
    assert Execute(h, c.p.fns, Stmt.Declare(x), w, s.gl, fuel) ==
           Done((), if x in w.vars then w else w.(vars := w.vars[x := Null]));
  }

  lemma StepDefine(h: Host, s: State, x: Name, rest: seq<Operand>, a: Operand)
    requires s.fault.None? && !s.skip && Has(s.code, s.pc, [Tok(VARX, x)]) && s.stack == rest + [a]
    ensures !Halted(s)
    ensures Run(h, s, 1) == s.(pc := s.pc + Len([Tok(VARX, x)]), stack := rest,
                               vars := Put(Tables.Declare(s.vars, x, Null), x, a.v))
  {
    hide Step, Run, Has;
    StepOnce(h, s, Tok(VARX, x));
    hide Put, Tables.Declare;
    assert Dropped(s.stack, 1) == rest;
  }

  lemma StepPrint(h: Host, s: State, rest: seq<Operand>, a: Operand)
    requires s.fault.None? && !s.skip && Has(s.code, s.pc, [Op(PRINT)]) && s.stack == rest + [a]
    ensures !Halted(s)
    ensures Run(h, s, 1) == s.(pc := s.pc + 1, stack := rest, out := s.out + [a.v])
  {
    hide Step, Run, Has;
    StepOnce(h, s, Op(PRINT));
    assert Dropped(s.stack, 1) == rest;
  }

  /** A statement that ends in one instruction using up the operand of its expression. */
  lemma SimUse(h: Host, c: Linked, st: Stmt, e: Expr, s: State, w: World, fuel: nat, base: seq<Operand>,
               junk: seq<Operand>,
               n1: nat, left: seq<Operand>, top: Operand)
    returns (n: nat)
    requires (st.Define? && st.e == e && st.x in c.p.names) || st == Stmt.Eval(Print(e))
    requires s.code == c.code && Has(s.code, s.pc, CompileStmt(h, st))
    requires Evaluated(h, c, e, s, n1, fuel, Evaluate(h, c.p.fns, e, w, s.gl, fuel), base, junk, left, top)
    ensures Executed(h, c, s, n, fuel, Execute(h, c.p.fns, st, w, s.gl, fuel), Len(CompileStmt(h, st)), base, left)
  {
    hide Represents, Run, Has, Evaluate, Compile, Calls, Put, Tables.Declare, CompileStmt, Execute, Len;
    var o := Evaluate(h, c.p.fns, e, w, s.gl, fuel);
    n := n1;
    var last := if st.Define? then Tok(VARX, st.x) else Op(PRINT);
    CompileUse(h, st, e);
    ExecuteUse(h, c.p.fns, st, e, w, s.gl, fuel);
    if o.Done? {
      n := n1 + 1;
      var t := Run(h, s, n1);
      HasConcat(s.code, s.pc, Compile(h, e), [last]);
      RunAdd(h, s, n1, 1);
      UseTop(h, c, st, t, o.w, s.gl, base + left, top);
      KeptTrans(s, t, Run(h, s, n), s.gl, s.gl);
    }
  }

  /** The last instruction of a definition or a print takes the value off the stack. */
  lemma UseTop(h: Host, c: Linked, st: Stmt, t: State, w: World, d: nat, rest: seq<Operand>, top: Operand)
    requires (st.Define? && st.x in c.p.names) || (st.Eval? && st.e.Print?)
    requires Holds(c, t, w, d, false) && t.stack == rest + [top]
    requires var last := if st.Define? then Tok(VARX, st.x) else Op(PRINT); Has(t.code, t.pc, [last])
    ensures var u, last := Run(h, t, 1), if st.Define? then Tok(VARX, st.x) else Op(PRINT);
            u.pc == t.pc + Len([last]) && u.stack == rest && Kept(t, u, d) &&
            Holds(c, u, if st.Define? then w.(vars := w.vars[st.x := top.v]) else w.(out := w.out + [top.v]), d, false)
  {
    hide Represents, Run, Has, Put, Tables.Declare;
    if st.Define? {
      StepDefine(h, t, st.x, rest, top);
      HoldsDefine(c, t, w, d, false, st.x, top.v);
    } else {
      StepPrint(h, t, rest, top);
    }
  }

  lemma CompileUse(h: Host, st: Stmt, e: Expr)
    requires (st.Define? && st.e == e) || st == Stmt.Eval(Print(e))
    ensures CompileStmt(h, st) == Compile(h, e) + [if st.Define? then Tok(VARX, st.x) else Op(PRINT)]
    ensures st.Eval? ==> Len([Op(PRINT)]) == 1
  {
  }

  lemma ExecuteUse(h: Host, fns: map<Name, Fn>, st: Stmt, e: Expr, w: World, d: nat, fuel: nat)
    requires (st.Define? && st.e == e) || st == Stmt.Eval(Print(e))
    ensures var o := Evaluate(h, fns, e, w, d, fuel);
            Execute(h, fns, st, w, d, fuel) ==
            if !o.Done? then o.PropagateFailure()
            else if st.Define? then Done((), o.w.(vars := o.w.vars[st.x := o.value.v]))
            else Done((), o.w.(out := o.w.out + [o.value.v]))
  {
    hide Evaluate;
  }

  // ----- conditions -----

  function FlagOf(op: Byte): (f: Byte) {
    if op == IF then RUN_IF else RUN_WHILE
  }

  lemma EnterGuard(h: Host, c: Linked, op: Byte, s: State, w: World)
    requires op == IF || op == WHILE
    requires Holds(c, s, w, s.gl, false) && s.gl < 255 && Has(s.code, s.pc, [Op(op)])
    ensures !Halted(s)
    ensures var t := Run(h, s, 1);
            Holds(c, t, w, s.gl + 1, false) && Kept(s, t, s.gl) && t.pc == s.pc + 1 && t.stack == s.stack &&
            t.runFlag[t.gl] == FlagOf(op) && (op == WHILE ==> t.retPoint[t.gl] == s.pc)
  {
    hide Step, Run, Has, Represents;
    StepOnce(h, s, Op(op));
  }

  lemma StepCheck(h: Host, t: State, rest: seq<Operand>, a: Operand)
    requires t.fault.None? && !t.skip && Has(t.code, t.pc, [Op(CEIT)]) && t.stack == rest + [a]
    requires t.runFlag[t.gl] == RUN_IF || t.runFlag[t.gl] == RUN_WHILE
    ensures !Halted(t)
    ensures var u := t.(pc := t.pc + 1, stack := rest);
            Run(h, t, 1) == if Truth(h, a.v) then u
                            else u.(gl := Dec(t.gl), skip := true,
                                    runFlag := if t.runFlag[t.gl] == RUN_IF then t.runFlag[t.gl := RUN_ELSE]
                                               else t.runFlag)
  {
    hide Step, Run, Has;
    StepOnce(h, t, Op(CEIT));
    hide Truth;
    assert Dropped(t.stack, 1) == rest;
  }

  lemma CheckGuard(h: Host, c: Linked, t: State, w: World, rest: seq<Operand>, a: Operand)
    requires t.gl > 0 && Holds(c, t, w, t.gl, false) && Has(t.code, t.pc, [Op(CEIT)]) && t.stack == rest + [a]
    requires t.runFlag[t.gl] == RUN_IF || t.runFlag[t.gl] == RUN_WHILE
    ensures var u := Run(h, t, 1);
            Kept(t, u, t.gl - 1) && u.pc == t.pc + 1 && u.stack == rest && u.retPoint == t.retPoint &&
            if Truth(h, a.v) then Holds(c, u, w, t.gl, false) && u.runFlag == t.runFlag
            else Holds(c, u, w, t.gl - 1, true) && (t.runFlag[t.gl] == RUN_IF ==> u.runFlag[t.gl] == RUN_ELSE)
  {
    hide Represents, Run, Has, Kept, Truth;
    StepCheck(h, t, rest, a);
    KeptAbove(t, Run(h, t, 1), t.gl - 1);
  }

  lemma GuardParts(h: Host, op: Byte, e: Expr, code: seq<Byte>, pc: nat)
    requires Has(code, pc, Guard(h, op, e))
    ensures Len(Guard(h, op, e)) == Len(Compile(h, e)) + 2
    ensures Has(code, pc, [Op(op)]) && Has(code, pc + 1, Compile(h, e))
    ensures Has(code, pc + 1 + Len(Compile(h, e)), [Op(CEIT)])
  {
    hide Has, Compile;
    HasConcat(code, pc, [Op(op)] + Compile(h, e), [Op(CEIT)]);
    HasConcat(code, pc, [Op(op)], Compile(h, e));
    assert Len([Op(op)]) == 1 && Len([Op(CEIT)]) == 1;
  }

  lemma BracedParts(code: seq<Byte>, pc: nat, body: seq<Instr>)
    requires Has(code, pc, Braced(body))
    ensures Len(Braced(body)) == Len(body) + 2
    ensures Has(code, pc, [Op(BLOCK_START)]) && Has(code, pc + 1, body)
    ensures Has(code, pc + 1 + Len(body), [Op(BLOCK_END)])
  {
    hide Has;
    HasConcat(code, pc, [Op(BLOCK_START)] + body, [Op(BLOCK_END)]);
    HasConcat(code, pc, [Op(BLOCK_START)], body);
    assert Len([Op(BLOCK_START)]) == 1 && Len([Op(BLOCK_END)]) == 1;
  }

  ghost predicate Guarded(h: Host, c: Linked, op: Byte, e: Expr, s: State, n: nat, fuel: nat, o: Outcome<bool>,
                          base: seq<Operand>, left: seq<Operand>)
  {
    if o.Done? then
      var t := Run(h, s, n);
      s.gl < 255 && Kept(s, t, s.gl) && t.pc == s.pc + Len(Guard(h, op, e)) && t.stack == base + left &&
      if o.value then
        Holds(c, t, o.w, s.gl + 1, false) && t.runFlag[s.gl + 1] == FlagOf(op) &&
        (op == WHILE ==> t.retPoint[s.gl + 1] == s.pc)
      else
        Holds(c, t, o.w, s.gl, true) && (op == IF ==> t.runFlag[s.gl + 1] == RUN_ELSE)
    else Stopped(h, s, n, fuel, o)
  }

  lemma GuardDone(h: Host, c: Linked, op: Byte, e: Expr, s: State, m: nat, w: World, fuel: nat,
                  base: seq<Operand>, left: seq<Operand>, top: Operand)
    requires (op == IF || op == WHILE) && s.gl < 255 && s.code == c.code
    requires Has(s.code, s.pc, Guard(h, op, e))
    requires var t := Run(h, s, m);
             Holds(c, t, w, s.gl as int + 1, false) && Kept(s, t, s.gl) && t.stack == base + left + [top] &&
             t.pc == s.pc + 1 + Len(Compile(h, e)) && t.runFlag[t.gl] == FlagOf(op) &&
             (op == WHILE ==> t.retPoint[t.gl] == s.pc)
    ensures Guarded(h, c, op, e, s, m + 1, fuel, Done(Truth(h, top.v), w), base, left)
  {
    hide Represents, Run, Has, Compile, Truth, Kept, Guard, Len;
    GuardParts(h, op, e, s.code, s.pc);
    var t := Run(h, s, m);
    CheckGuard(h, c, t, w, base + left, top);
    RunAdd(h, s, m, 1);
    KeptTrans(s, t, Run(h, t, 1), s.gl, s.gl);
  }

  lemma SimGuard(h: Host, c: Linked, op: Byte, e: Expr, s: State, w: World, fuel: nat,
                 base: seq<Operand>, junk: seq<Operand>, n1: nat, left: seq<Operand>, top: Operand)
    returns (n: nat)
    requires op == IF || op == WHILE
    requires Holds(c, s, w, s.gl, false) && s.gl < 255 && Has(s.code, s.pc, Guard(h, op, e))
    requires Evaluated(h, c, e, Run(h, s, 1), n1, fuel, Evaluate(h, c.p.fns, e, w, s.gl as int + 1, fuel),
                       base, junk, left, top)
    ensures n >= 1
    ensures Guarded(h, c, op, e, s, n, fuel, Choose(h, c.p.fns, e, w, s.gl, fuel), base, left)
  {
    hide Represents, Run, Has, Evaluate, Compile, Calls, Truth, Kept, Guard, Len, LeftSafe, ZeroTag, FlagOf;
    GuardParts(h, op, e, s.code, s.pc);
    EnterGuard(h, c, op, s, w);
    var o := Evaluate(h, c.p.fns, e, w, s.gl as int + 1, fuel);
    if o.Done? {
      var t1, t := Run(h, s, 1), Run(h, s, 1 + n1);
      RunAdd(h, s, 1, n1);
      KeptTrans(s, t1, t, s.gl, s.gl as int + 1);
      FlagKept(t1, t, t1.gl);
      GuardDone(h, c, op, e, s, 1 + n1, o.w, fuel, base, left, top);
      n := n1 + 2;
    } else {
      StoppedLater(h, s, 1, n1, fuel, o);
      n := n1 + 1;
    }
  }

  // ----- bodies -----

  lemma SkipBody(h: Host, c: Linked, ss: seq<Stmt>, t: State, w: World, d: nat)
    requires Holds(c, t, w, d, true) && WfStmts(c.p, ss) && Nest(ss) < 255
    requires Has(t.code, t.pc, Braced(CompileStmts(h, ss)))
    ensures var u := Run(h, t, |CompileStmts(h, ss)| + 2);
            Holds(c, u, w, d, false) && u.runFlag == t.runFlag && u.retPoint == t.retPoint && u.stack == t.stack &&
            u.pc == t.pc + Len(Braced(CompileStmts(h, ss)))
  {
    hide Represents, Run, Has, Balanced, CompileStmts;
    StmtsBalanced(h, c.p, ss);
    SkipExactly(h, t, CompileStmts(h, ss), Nest(ss));
  }

  lemma StepOpen(h: Host, t: State)
    requires t.fault.None? && !t.skip && Has(t.code, t.pc, [Op(BLOCK_START)])
    ensures !Halted(t) && Run(h, t, 1) == t.(pc := t.pc + 1)
  {
    hide Step, Run, Has;
    StepOnce(h, t, Op(BLOCK_START));
  }

  lemma StepClose(h: Host, t: State)
    requires t.fault.None? && !t.skip && !t.defMode && Has(t.code, t.pc, [Op(BLOCK_END)])
    requires t.runFlag[t.gl] != RUN_BLOCK
    ensures !Halted(t)
    ensures Run(h, t, 1) == t.(pc := if t.runFlag[t.gl] == RUN_WHILE then t.retPoint[t.gl] else t.pc + 1,
                               gl := Dec(t.gl), stack := Cleared(t.stack, Dec(t.gl)))
  {
    hide Step, Run, Has, Cleared;
    StepOnce(h, t, Op(BLOCK_END));
  }

  ghost predicate Looped(h: Host, c: Linked, ss: seq<Stmt>, t: State, n: nat, fuel: nat, o: Outcome<()>,
                         base: seq<Operand>, left: seq<Operand>)
  {
    if o.Done? then
      var u := Run(h, t, n);
      t.gl > 0 && Holds(c, u, o.w, t.gl - 1, false) && Kept(t, u, t.gl) && u.stack == base + left &&
      u.pc == if t.runFlag[t.gl] == RUN_WHILE then t.retPoint[t.gl] else t.pc + Len(Braced(CompileStmts(h, ss)))
    else Stopped(h, t, n, fuel, o)
  }

  lemma SimBody(h: Host, c: Linked, ss: seq<Stmt>, t: State, w: World, fuel: nat,
                base: seq<Operand>, n1: nat, left1: seq<Operand>)
    returns (n: nat, left: seq<Operand>)
    requires t.gl > 0 && Holds(c, t, w, t.gl, false) && Has(t.code, t.pc, Braced(CompileStmts(h, ss)))
    requires t.runFlag[t.gl] != RUN_BLOCK && Shielded(base, t.gl - 1)
    requires Executed(h, c, Run(h, t, 1), n1, fuel, ExecuteAll(h, c.p.fns, ss, w, t.gl, fuel),
                      Len(CompileStmts(h, ss)), base, left1)
    ensures Looped(h, c, ss, t, n, fuel, ExecuteAll(h, c.p.fns, ss, w, t.gl, fuel), base, left)
    ensures left <= left1
  {
    hide Represents, Run, Has, ExecuteAll, CompileStmts, Cleared, Kept, Braced, Len;
    BracedParts(t.code, t.pc, CompileStmts(h, ss));
    StepOpen(h, t);
    var o := ExecuteAll(h, c.p.fns, ss, w, t.gl, fuel);
    n, left := 1 + n1, left1;
    if o.Done? {
      RunAdd(h, t, 1, n1);
      var u := Run(h, t, 1 + n1);
      KeptAbove(t, Run(h, t, 1), t.gl);
      KeptTrans(t, Run(h, t, 1), u, t.gl, t.gl);
      FlagKept(t, u, t.gl);
      StepClose(h, u);
      left := ClearedShielded(base, left1, t.gl - 1);
      n := n + 1;
      RunAdd(h, t, 1 + n1, 1);
      KeptAbove(u, Run(h, u, 1), t.gl);
      KeptTrans(t, u, Run(h, u, 1), t.gl, t.gl);
    } else {
      StoppedLater(h, t, 1, n1, fuel, o);
    }
  }

  // ----- if and else -----

  /** The half of an if statement up to the end of its first block; a flag remembers which way it went. */
  ghost predicate Branched(h: Host, c: Linked, e: Expr, yes: seq<Stmt>, s: State, w: World, n: nat, fuel: nat,
                           base: seq<Operand>, left: seq<Operand>)
  {
    var o := Choose(h, c.p.fns, e, w, s.gl, fuel);
    Executed(h, c, s, n, fuel, Execute(h, c.p.fns, If(e, yes), w, s.gl, fuel), Len(CompileStmt(h, If(e, yes))), base,
             left) &&
    (Execute(h, c.p.fns, If(e, yes), w, s.gl, fuel).Done? && o.Done? ==>
       s.gl < 255 && Run(h, s, n).runFlag[s.gl as int + 1] == if o.value then RUN_IF else RUN_ELSE)
  }

  lemma IfParts(h: Host, e: Expr, yes: seq<Stmt>, code: seq<Byte>, pc: nat)
    requires Has(code, pc, CompileStmt(h, If(e, yes)))
    ensures Len(CompileStmt(h, If(e, yes))) == Len(Guard(h, IF, e)) + Len(Braced(CompileStmts(h, yes)))
    ensures Has(code, pc, Guard(h, IF, e)) && Has(code, pc + Len(Guard(h, IF, e)), Braced(CompileStmts(h, yes)))
  {
    hide Has, Len, Guard, Braced, CompileStmts;
    HasConcat(code, pc, Guard(h, IF, e), Braced(CompileStmts(h, yes)));
  }

  lemma ExecuteIf(h: Host, fns: map<Name, Fn>, e: Expr, yes: seq<Stmt>, w: World, d: nat, fuel: nat)
    ensures var o := Choose(h, fns, e, w, d, fuel);
            Execute(h, fns, If(e, yes), w, d, fuel) ==
            if !o.Done? then o.PropagateFailure()
            else if o.value then ExecuteAll(h, fns, yes, o.w, d + 1, fuel) else Done((), o.w)
  {
    hide Choose, ExecuteAll;
  }

  lemma IfTrue(h: Host, c: Linked, e: Expr, yes: seq<Stmt>, s: State, w: World, n1: nat, fuel: nat,
               base: seq<Operand>, left1: seq<Operand>, n2: nat, left: seq<Operand>)
    requires s.code == c.code && Has(s.code, s.pc, CompileStmt(h, If(e, yes)))
    requires var o := Choose(h, c.p.fns, e, w, s.gl, fuel);
             Guarded(h, c, IF, e, s, n1, fuel, o, base, left1) && o.Done? && o.value &&
             Looped(h, c, yes, Run(h, s, n1), n2, fuel,
                    ExecuteAll(h, c.p.fns, yes, o.w, s.gl as int + 1, fuel), base, left)
    ensures Branched(h, c, e, yes, s, w, n1 + n2, fuel, base, left)
  {
    hide Represents, Run, Has, Len, Guard, Braced, CompileStmts, Choose, ExecuteAll, Kept;
    IfParts(h, e, yes, s.code, s.pc);
    ExecuteIf(h, c.p.fns, e, yes, w, s.gl, fuel);
    hide Execute, CompileStmt;
    var o := Choose(h, c.p.fns, e, w, s.gl, fuel);
    var o2 := ExecuteAll(h, c.p.fns, yes, o.w, s.gl as int + 1, fuel);
    var t, u := Run(h, s, n1), Run(h, s, n1 + n2);
    RunAdd(h, s, n1, n2);
    if o2.Done? {
      KeptTrans(s, t, u, s.gl, t.gl);
      FlagKept(t, u, t.gl);
    }
  }

  lemma IfFalse(h: Host, c: Linked, e: Expr, yes: seq<Stmt>, s: State, w: World, n1: nat, fuel: nat,
                base: seq<Operand>, left: seq<Operand>)
    returns (n: nat)
    requires s.code == c.code && Has(s.code, s.pc, CompileStmt(h, If(e, yes)))
    requires WfStmts(c.p, yes) && Nest(yes) < 255
    requires var o := Choose(h, c.p.fns, e, w, s.gl, fuel);
             Guarded(h, c, IF, e, s, n1, fuel, o, base, left) && o.Done? && !o.value
    ensures Branched(h, c, e, yes, s, w, n, fuel, base, left)
  {
    hide Represents, Run, Has, Len, Guard, Braced, CompileStmts, Choose, ExecuteAll, Kept, WfStmts, Nest;
    IfParts(h, e, yes, s.code, s.pc);
    ExecuteIf(h, c.p.fns, e, yes, w, s.gl, fuel);
    hide Execute, CompileStmt;
    var o := Choose(h, c.p.fns, e, w, s.gl, fuel);
    var t := Run(h, s, n1);
    var m := |CompileStmts(h, yes)| + 2;
    n := n1 + m;
    SkipBody(h, c, yes, t, o.w, s.gl);
    RunAdd(h, s, n1, m);
    KeptAbove(t, Run(h, t, m), s.gl);
    KeptTrans(s, t, Run(h, t, m), s.gl, s.gl);
  }

  lemma StepElse(h: Host, c: Linked, t: State, w: World)
    requires Holds(c, t, w, t.gl, false) && t.gl < 255 && Has(t.code, t.pc, [Op(ELSE)])
    ensures !Halted(t)
    ensures var u := Run(h, t, 1);
            u.pc == t.pc + 1 && u.stack == t.stack && u.runFlag == t.runFlag && u.retPoint == t.retPoint &&
            if t.runFlag[t.gl as int + 1] == RUN_IF then Holds(c, u, w, t.gl, true)
            else Holds(c, u, w, t.gl as int + 1, false)
  {
    hide Step, Run, Has, Represents;
    StepOnce(h, t, Op(ELSE));
  }

  lemma ElseParts(h: Host, e: Expr, yes: seq<Stmt>, no: seq<Stmt>, code: seq<Byte>, pc: nat)
    requires Has(code, pc, CompileStmt(h, IfElse(e, yes, no)))
    ensures var m := Len(CompileStmt(h, If(e, yes)));
            Len(CompileStmt(h, IfElse(e, yes, no))) == m + 1 + Len(Braced(CompileStmts(h, no))) &&
            Has(code, pc, CompileStmt(h, If(e, yes))) && Has(code, pc + m, [Op(ELSE)]) &&
            Has(code, pc + m + 1, Braced(CompileStmts(h, no)))
  {
    hide Has, Guard, Braced, CompileStmts;
    var a, b := CompileStmt(h, If(e, yes)), Braced(CompileStmts(h, no));
    HasConcat(code, pc, a, [Op(ELSE)] + b);
    HasConcat(code, pc + Len(a), [Op(ELSE)], b);
    assert Len([Op(ELSE)]) == 1;
  }

  lemma ExecuteIfElse(h: Host, fns: map<Name, Fn>, e: Expr, yes: seq<Stmt>, no: seq<Stmt>, w: World, d: nat, fuel: nat)
    ensures var o := Choose(h, fns, e, w, d, fuel);
            Execute(h, fns, IfElse(e, yes, no), w, d, fuel) ==
            if o.Done? && !o.value then ExecuteAll(h, fns, no, o.w, d + 1, fuel)
            else Execute(h, fns, If(e, yes), w, d, fuel)
  {
    hide Choose, ExecuteAll;
  }

  lemma ElseSkipped(h: Host, c: Linked, e: Expr, yes: seq<Stmt>, no: seq<Stmt>, s: State, w: World, n1: nat, fuel: nat,
                    base: seq<Operand>, left: seq<Operand>)
    returns (n: nat)
    requires s.code == c.code && Has(s.code, s.pc, CompileStmt(h, IfElse(e, yes, no)))
    requires WfStmts(c.p, no) && Nest(no) < 255
    requires Branched(h, c, e, yes, s, w, n1, fuel, base, left)
    requires var o := Choose(h, c.p.fns, e, w, s.gl, fuel); o.Done? ==> o.value
    ensures Executed(h, c, s, n, fuel, Execute(h, c.p.fns, IfElse(e, yes, no), w, s.gl, fuel),
                     Len(CompileStmt(h, IfElse(e, yes, no))), base, left)
  {
    hide Represents, Run, Has, Len, Guard, Braced, CompileStmt, CompileStmts, Choose, Execute, ExecuteAll, Kept;
    hide WfStmts, Nest;
    ElseParts(h, e, yes, no, s.code, s.pc);
    ExecuteIfElse(h, c.p.fns, e, yes, no, w, s.gl, fuel);
    ExecuteIf(h, c.p.fns, e, yes, w, s.gl, fuel);
    n := n1;
    var o := Execute(h, c.p.fns, If(e, yes), w, s.gl, fuel);
    if o.Done? {
      var t := Run(h, s, n1);
      StepElse(h, c, t, o.w);
      var u := Run(h, t, 1);
      SkipBody(h, c, no, u, o.w, s.gl);
      var m := |CompileStmts(h, no)| + 2;
      RunAdd(h, s, n1, 1);
      RunAdd(h, s, n1 + 1, m);
      n := n1 + 1 + m;
      KeptAbove(t, Run(h, u, m), s.gl);
      KeptTrans(s, t, Run(h, u, m), s.gl, s.gl);
    }
  }

  lemma ElseTaken(h: Host, c: Linked, e: Expr, yes: seq<Stmt>, no: seq<Stmt>, s: State, w: World, n1: nat, fuel: nat,
                  base: seq<Operand>, left1: seq<Operand>, n2: nat, left: seq<Operand>)
    requires s.code == c.code && Has(s.code, s.pc, CompileStmt(h, IfElse(e, yes, no)))
    requires Branched(h, c, e, yes, s, w, n1, fuel, base, left1)
    requires var o := Choose(h, c.p.fns, e, w, s.gl, fuel);
             o.Done? && !o.value &&
             Looped(h, c, no, Run(h, Run(h, s, n1), 1), n2, fuel,
                    ExecuteAll(h, c.p.fns, no, o.w, s.gl as int + 1, fuel), base, left)
    ensures Executed(h, c, s, n1 + 1 + n2, fuel, Execute(h, c.p.fns, IfElse(e, yes, no), w, s.gl, fuel),
                     Len(CompileStmt(h, IfElse(e, yes, no))), base, left)
  {
    hide Represents, Run, Has, Len, Guard, Braced, CompileStmt, CompileStmts, Choose, Execute, ExecuteAll, Kept;
    ElseParts(h, e, yes, no, s.code, s.pc);
    ExecuteIfElse(h, c.p.fns, e, yes, no, w, s.gl, fuel);
    ExecuteIf(h, c.p.fns, e, yes, w, s.gl, fuel);
    var o := Choose(h, c.p.fns, e, w, s.gl, fuel);
    var o2 := ExecuteAll(h, c.p.fns, no, o.w, s.gl as int + 1, fuel);
    var t := Run(h, s, n1);
    StepElse(h, c, t, o.w);
    var u := Run(h, t, 1);
    RunAdd(h, s, n1, 1);
    RunAdd(h, s, n1 + 1, n2);
    if o2.Done? {
      var v := Run(h, u, n2);
      KeptAbove(t, u, s.gl);
      KeptTrans(t, u, v, s.gl, u.gl);
      KeptTrans(s, t, v, s.gl, s.gl);
    }
  }

  // ----- loops -----

  lemma WhileParts(h: Host, e: Expr, body: seq<Stmt>, code: seq<Byte>, pc: nat)
    requires Has(code, pc, CompileStmt(h, While(e, body)))
    ensures Len(CompileStmt(h, While(e, body))) == Len(Guard(h, WHILE, e)) + Len(Braced(CompileStmts(h, body)))
    ensures Has(code, pc, Guard(h, WHILE, e)) && Has(code, pc + Len(Guard(h, WHILE, e)), Braced(CompileStmts(h, body)))
  {
    hide Has, Len, Guard, Braced, CompileStmts;
    HasConcat(code, pc, Guard(h, WHILE, e), Braced(CompileStmts(h, body)));
  }

  lemma ExecuteWhile(h: Host, fns: map<Name, Fn>, e: Expr, body: seq<Stmt>, w: World, d: nat, fuel: nat)
    ensures var o := Choose(h, fns, e, w, d, fuel);
            Execute(h, fns, While(e, body), w, d, fuel) ==
            if !o.Done? then o.PropagateFailure()
            else if !o.value then Done((), o.w)
            else
              var o2 := ExecuteAll(h, fns, body, o.w, d + 1, fuel);
              if !o2.Done? then o2
              else if fuel == 0 then Spent
              else Execute(h, fns, While(e, body), o2.w, d, fuel - 1)
  {
    hide Choose, ExecuteAll;
  }

  lemma WhileEnds(h: Host, c: Linked, e: Expr, body: seq<Stmt>, s: State, w: World, n1: nat, fuel: nat,
                  base: seq<Operand>, left: seq<Operand>)
    returns (n: nat)
    requires s.code == c.code && Has(s.code, s.pc, CompileStmt(h, While(e, body)))
    requires WfStmts(c.p, body) && Nest(body) < 255
    requires var o := Choose(h, c.p.fns, e, w, s.gl, fuel);
             Guarded(h, c, WHILE, e, s, n1, fuel, o, base, left) && o.Done? && !o.value
    ensures Executed(h, c, s, n, fuel, Execute(h, c.p.fns, While(e, body), w, s.gl, fuel),
                     Len(CompileStmt(h, While(e, body))), base, left)
  {
    hide Represents, Run, Has, Len, Guard, Braced, CompileStmt, CompileStmts, Choose, Execute, Kept, WfStmts, Nest;
    WhileParts(h, e, body, s.code, s.pc);
    ExecuteWhile(h, c.p.fns, e, body, w, s.gl, fuel);
    var o := Choose(h, c.p.fns, e, w, s.gl, fuel);
    var t := Run(h, s, n1);
    var m := |CompileStmts(h, body)| + 2;
    n := n1 + m;
    SkipBody(h, c, body, t, o.w, s.gl);
    RunAdd(h, s, n1, m);
    KeptAbove(t, Run(h, t, m), s.gl);
    KeptTrans(s, t, Run(h, t, m), s.gl, s.gl);
  }

  /** After one round the machine is back at the WHILE instruction. */
  lemma WhileRound(h: Host, c: Linked, e: Expr, body: seq<Stmt>, s: State, w: World, n1: nat, fuel: nat,
                   base: seq<Operand>, left1: seq<Operand>, n2: nat, left: seq<Operand>)
    requires s.code == c.code && Has(s.code, s.pc, CompileStmt(h, While(e, body)))
    requires var o := Choose(h, c.p.fns, e, w, s.gl, fuel);
             Guarded(h, c, WHILE, e, s, n1, fuel, o, base, left1) && o.Done? && o.value &&
             Looped(h, c, body, Run(h, s, n1), n2, fuel,
                    ExecuteAll(h, c.p.fns, body, o.w, s.gl as int + 1, fuel), base, left)
    ensures var o := Choose(h, c.p.fns, e, w, s.gl, fuel);
            var o2 := ExecuteAll(h, c.p.fns, body, o.w, s.gl as int + 1, fuel);
            Executed(h, c, s, n1 + n2, fuel, o2, 0, base, left)
    ensures var o := Choose(h, c.p.fns, e, w, s.gl, fuel);
            var o2 := ExecuteAll(h, c.p.fns, body, o.w, s.gl as int + 1, fuel);
            o2.Done? ==> !Halted(Run(h, s, n1 + n2))
  {
    hide Represents, Run, Len, Guard, Braced, CompileStmts, Choose, ExecuteAll, Kept;
    WhileParts(h, e, body, s.code, s.pc);
    GuardParts(h, WHILE, e, s.code, s.pc);
    HasOne(s.code, s.pc, Op(WHILE));
    hide CompileStmt, Has;
    var o := Choose(h, c.p.fns, e, w, s.gl, fuel);
    var o2 := ExecuteAll(h, c.p.fns, body, o.w, s.gl as int + 1, fuel);
    var t, u := Run(h, s, n1), Run(h, s, n1 + n2);
    RunAdd(h, s, n1, n2);
    if o2.Done? {
      KeptTrans(s, t, u, s.gl, t.gl);
    }
  }

  lemma WhileAgain(h: Host, c: Linked, e: Expr, body: seq<Stmt>, s: State, w: World, n1: nat, fuel: nat,
                   base: seq<Operand>, n2: nat, left: seq<Operand>)
    requires n1 >= 1 && fuel > 0
    requires var o := Choose(h, c.p.fns, e, w, s.gl, fuel);
             o.Done? && o.value &&
             var o2 := ExecuteAll(h, c.p.fns, body, o.w, s.gl as int + 1, fuel);
             o2.Done? && Kept(s, Run(h, s, n1), s.gl) && Run(h, s, n1).gl == s.gl && Run(h, s, n1).pc == s.pc &&
             Executed(h, c, Run(h, s, n1), n2, fuel - 1, Execute(h, c.p.fns, While(e, body), o2.w, s.gl, fuel - 1),
                      Len(CompileStmt(h, While(e, body))), base, left)
    ensures Executed(h, c, s, n1 + n2, fuel, Execute(h, c.p.fns, While(e, body), w, s.gl, fuel),
                     Len(CompileStmt(h, While(e, body))), base, left)
  {
    hide Represents, Run, Len, CompileStmt, Choose, ExecuteAll, Execute, Kept;
    ExecuteWhile(h, c.p.fns, e, body, w, s.gl, fuel);
    RunAdd(h, s, n1, n2);
    var t, u := Run(h, s, n1), Run(h, s, n1 + n2);
    if Execute(h, c.p.fns, While(e, body), w, s.gl, fuel).Done? {
      KeptTrans(s, t, u, s.gl, s.gl);
    }
  }
}
