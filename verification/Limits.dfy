/** Where the code departs from what its callers may expect, and exactly when it does. */
module Limits {
  import opened Bytes
  import opened Bytecode
  import opened Values
  import opened Tables
  import opened Machine
  import opened Syntax
  import opened Semantics
  import opened Fragment
  import opened Skipping
  import opened Balance
  import opened Steps
  import opened Tags
  import opened Operands
  import opened Branches
  import opened CallRuns
  import opened Simulation
  import opened Program
  import opened Nested
  import opened Grammar
  import opened Rendering
  import opened Scanning
  import opened Digest
  import opened Layout

  // ----- return inside if or while -----

  lemma {:induction false} UnwoundToGround(s: State, n: nat)
    requires s.runFlag[0] == 0 && forall i :: 1 <= i <= s.gl as int ==> s.runFlag[i] != 0
    requires n >= s.gl as int
    ensures Unwound(s, n) == s.(pc := if s.gl == 0 then s.pc else s.retPoint[1], gl := 0)
    decreases n
  {
    if s.gl != 0 {
      UnwoundToGround(s.(pc := s.retPoint[s.gl], gl := Dec(s.gl)), n - 1);
    }
  }

  /** A `return` at a level above its block's own leaves every level: it resumes behind the outermost
      call, on level 0. So it comes back to its caller exactly when its block was called from level 0. */
  lemma NestedReturn(h: Host, s: State, k: nat)
    requires s.fault.None? && s.runFlag[0] == 0 && forall i :: 1 <= i <= s.gl as int ==> s.runFlag[i] != 0
    requires 1 <= k < s.gl as int && s.runFlag[k] == RUN_BLOCK && s.runFlag[s.gl] != RUN_BLOCK
    ensures var t := Machine.Return(h, s);
            t.fault.None? && t.gl == 0 && t.pc == s.retPoint[1] &&
            (t.pc == s.retPoint[k] && t.gl == k - 1 <==> k == 1)
  {
    hide Cleared, Unwound;
    var o := if s.stack == [] then Operand(Num(h.zero), None, 0) else Top(s).(from := None);
    var rest := if s.stack == [] then [] else Cleared(Dropped(s.stack, 1), s.gl);
    UnwoundToGround(s.(stack := rest + [o]), 256);
  }

  // ----- a block called while an operand is pending -----

  /** Clearing splits a stack: what it takes is tagged at the level or above, what it leaves ends below it. */
  lemma {:induction false} ClearedSplits(stack: seq<Operand>, k: Byte)
    returns (gone: seq<Operand>)
    ensures stack == Cleared(stack, k) + gone && Shielded(Cleared(stack, k), k)
    ensures forall o :: o in gone ==> o.level >= k
    decreases |stack|
  {
    gone := [];
    if stack != [] && stack[|stack| - 1].level >= k {
      var init, last := stack[..|stack| - 1], stack[|stack| - 1];
      var more := ClearedSplits(init, k);
      gone := more + [last];
      assert stack == init + [last];
    }
  }

  lemma PendingDecided(h: Host, c: Linked, e: Expr, s: State, w: World, fuel: nat)
    returns (n: nat, top: Operand)
    requires e.Call? && Calls(e) <= c.p.clean && Wf(c.p, e)
    requires Decided(c.p) && LinkedOk(h, c) && Holds(c, s, w, s.gl, false) && Has(s.code, s.pc, Compile(h, e))
    requires Evaluate(h, c.p.fns, e, w, s.gl, fuel).Done?
    ensures s.gl < 255
    ensures var o, t := Evaluate(h, c.p.fns, e, w, s.gl, fuel), Run(h, s, n);
            Holds(c, t, o.w, s.gl, false) && t.pc == s.pc + Len(Compile(h, e)) && top.v == o.value.v &&
            t.stack == Cleared(s.stack, s.gl + 1) + [top] &&
            (t.stack == s.stack + [top] <==> s.stack == [] || s.stack[|s.stack| - 1].level <= s.gl)
    ensures if e.f in c.p.zero then top.level == 0 else top.level > s.gl
  {
    hide Run, Has, Represents, Kept, Wf, Calls, FnLinked, Compile, Decided;
    EvaluateCall(h, c.p.fns, e, w, s.gl, fuel);
    hide Evaluate, Len;
    var base := Cleared(s.stack, s.gl + 1);
    var gone := ClearedSplits(s.stack, s.gl + 1);
    var left;
    n, left, top := SimCall(h, c, e, s, w, fuel, base, gone);
    assert base + left == base;
    hide Cleared;
    StaysOrGoes(s.stack, base, gone, top, s.gl + 1);
  }

  lemma StaysOrGoes(stack: seq<Operand>, base: seq<Operand>, gone: seq<Operand>, top: Operand, k: Byte)
    requires stack == base + gone && Shielded(base, k) && forall o :: o in gone ==> o.level >= k
    ensures base + [top] == stack + [top] <==> stack == [] || stack[|stack| - 1].level < k
  {
    if gone != [] {
      assert stack[|stack| - 1] == gone[|gone| - 1];
      assert |base + [top]| != |stack + [top]|;
    } else {
      assert base + [] == base;
    }
  }

  /** Calling a clean block with any operands pending: they are cleared down to the first one that is tagged at
      most the caller's level, and the result comes on top. So they all stay exactly when the topmost does. The
      result itself is tagged 0 or above the caller's level, and which of the two is read off the blocks. */
  lemma PendingStays(h: Host, c: Linked, e: Expr, s: State, w: World, fuel: nat)
    returns (n: nat, top: Operand)
    requires e.Call? && Calls(e) <= c.p.clean && Wf(c.p, e)
    requires LinkedOk(h, c) && Holds(c, s, w, s.gl, false) && Has(s.code, s.pc, Compile(h, e))
    requires Evaluate(h, c.p.fns, e, w, s.gl, fuel).Done?
    ensures s.gl < 255
    ensures var o, t := Evaluate(h, c.p.fns, e, w, s.gl, fuel), Run(h, s, n);
            Holds(c, t, o.w, s.gl, false) && t.pc == s.pc + Len(Compile(h, e)) && top.v == o.value.v &&
            t.stack == Cleared(s.stack, s.gl + 1) + [top] &&
            (t.stack == s.stack + [top] <==> s.stack == [] || s.stack[|s.stack| - 1].level <= s.gl)
    ensures if e.f in ZeroBlocks(c.p) then top.level == 0 else top.level > s.gl
  {
    hide Run, Has, Represents, Kept, Wf, Calls, LinkedOk, Compile, Evaluate, Len, ZeroBlocks, Decided, WfProg;
    var d := c.(p := Completed(c.p));
    assert WfProg(c.p) by { LinkedFits(h, c); }
    CompletedFits(c.p);
    CompletedLinked(h, c);
    WfMore(c.p, d.p, e);
    n, top := PendingDecided(h, d, e, s, w, fuel);
  }

  lemma LinkedFits(h: Host, c: Linked)
    requires LinkedOk(h, c)
    ensures WfProg(c.p)
  {
  }

  /** What two calls of clean blocks leave for the operator behind them: both results exactly if the first block
      is one of those whose results carry tag 0. Otherwise the second call throws the first result away, and the
      operator takes the topmost of what was pending before instead, or fails on an empty stack. */
  lemma SumOfCalls(h: Host, c: Linked, op: BinOp, l: Expr, r: Expr, s: State, w: World, fuel: nat)
    returns (n: nat, m: nat, a: Operand, b: Operand)
    requires l.Call? && r.Call? && Wf(c.p, l) && Wf(c.p, r) && Calls(l) <= c.p.clean && Calls(r) <= c.p.clean
    requires LinkedOk(h, c) && Holds(c, s, w, s.gl, false)
    requires Has(s.code, s.pc, Compile(h, l)) && Has(s.code, s.pc + Len(Compile(h, l)), Compile(h, r))
    requires Has(s.code, s.pc + Len(Compile(h, l)) + Len(Compile(h, r)), [Op(OpCode(op))])
    requires Evaluate(h, c.p.fns, l, w, s.gl, fuel).Done?
    requires Evaluate(h, c.p.fns, r, Evaluate(h, c.p.fns, l, w, s.gl, fuel).w, s.gl, fuel).Done?
    ensures s.gl < 255 && n <= m
    ensures a.v == Evaluate(h, c.p.fns, l, w, s.gl, fuel).value.v
    ensures b.v == Evaluate(h, c.p.fns, r, Evaluate(h, c.p.fns, l, w, s.gl, fuel).w, s.gl, fuel).value.v
    ensures var rest, t := Cleared(s.stack, s.gl + 1), Run(h, s, m);
            Run(h, s, n).stack == rest + [a] && t.fault.None? &&
            t.pc == s.pc + Len(Compile(h, l)) + Len(Compile(h, r)) &&
            t.stack == rest + (if l.f in ZeroBlocks(c.p) then [a, b] else [b])
    ensures var rest := Cleared(s.stack, s.gl + 1);
            Combined(h, op, Run(h, s, m + 1), if l.f in ZeroBlocks(c.p) then rest + [a] else rest, b)
  {
    hide Run, Has, Represents, Kept, Wf, Calls, FnLinked, Compile, Evaluate, Apply, OpCode, Len, ZeroBlocks, Combined;
    n, a := PendingStays(h, c, l, s, w, fuel);
    var t1 := Run(h, s, n);
    var n2;
    n2, b := PendingStays(h, c, r, t1, Evaluate(h, c.p.fns, l, w, s.gl, fuel).w, fuel);
    RunAdd(h, s, n, n2);
    m := n + n2;
    var rest := Cleared(s.stack, s.gl + 1);
    ClearedPending(s.stack, a, s.gl + 1);
    RunAdd(h, s, m, 1);
    if l.f in ZeroBlocks(c.p) {
      assert rest + [a] + [b] == rest + [a, b];
      Combines(h, op, Run(h, s, m), rest + [a], b);
    } else {
      Combines(h, op, Run(h, s, m), rest, b);
    }
  }

  /** What an operator makes of the operand on top of the others and of b. */
  ghost predicate Combined(h: Host, op: BinOp, t: State, others: seq<Operand>, b: Operand) {
    if others == [] then t.fault == Some(RuntimeError)
    else
      var first, v := others[|others| - 1], Apply(h, op, others[|others| - 1].v, b.v);
      if v.Err? then t.fault == Some(v.fault)
      else
        t.fault.None? && |t.stack| == |others| && t.stack[..|others| - 1] == others[..|others| - 1] &&
        t.stack[|others| - 1].v == v.value
  }

  lemma ClearedPending(stack: seq<Operand>, a: Operand, k: Byte)
    ensures var rest := Cleared(stack, k); Cleared(rest + [a], k) == if a.level >= k then rest else rest + [a]
  {
    var rest := Cleared(stack, k);
    assert (rest + [a])[..|rest|] == rest;
    ClearedTwice(stack, k);
  }

  lemma Combines(h: Host, op: BinOp, t: State, others: seq<Operand>, b: Operand)
    requires t.fault.None? && !t.skip && Has(t.code, t.pc, [Op(OpCode(op))]) && t.stack == others + [b]
    ensures Combined(h, op, Run(h, t, 1), others, b)
  {
    hide Run, Has, Apply, OpCode;
    if others == [] {
      assert t.stack == [b];
      LoneOperand(h, t, op, b);
    } else {
      var init, first := others[..|others| - 1], others[|others| - 1];
      assert t.stack == init + [first] + [b];
      StepBinary(h, t, op, init, first, b);
    }
  }

  lemma LoneOperand(h: Host, t: State, op: BinOp, b: Operand)
    requires t.fault.None? && !t.skip && Has(t.code, t.pc, [Op(OpCode(op))]) && t.stack == [b]
    ensures Run(h, t, 1).fault == Some(RuntimeError)
  {
    hide Run, Has, Apply, OpCode;
    StepOnce(h, t, Op(OpCode(op)));
    OpCodes(op);
  }

  /** A block without parameters whose body is a `return` of a literal. */
  predicate ReturnsLiteral(f: Fn) {
    f.params == [] && f.body == [] && f.ret.Some? && (f.ret.value.Number? || f.ret.value.Quoted?)
  }

  /** A number is pushed directly, with tag 0; a string carries the level of the block. */
  function LiteralOperand(h: Host, e: Expr, g: Byte): (o: Operand)
    requires e.Number? || e.Quoted?
  {
    if e.Number? then Operand(Num(h.strtod(e.token)), None, 0) else Operand(Str(e.text), None, g)
  }

  lemma LiteralParts(h: Host, f: Fn, code: seq<Byte>, pos: nat)
    requires ReturnsLiteral(f) && Has(code, pos, FnCode(h, f))
    ensures var r := Compile(h, f.ret.value);
            Has(code, pos, [Op(BLOCK_START)]) && Has(code, pos + 1, [Op(CLEAR_STACK)]) && Has(code, pos + 2, r) &&
            Has(code, pos + 2 + Len(r), [Op(RETURN)])
  {
    hide Has, Compile, FnCode, Len, ParamCode, CompileStmts, ReturnCode;
    FnParts(h, f, code, pos);
    NoCode(h, f);
    ReturnParts(h, f.ret.value, code, pos + 1);
  }

  lemma NoCode(h: Host, f: Fn)
    requires f.params == [] && f.body == []
    ensures Len(ParamCode(f.params)) == 0 && Len(CompileStmts(h, f.body)) == 0
  {
  }

  lemma StepLiteral(h: Host, t: State, e: Expr)
    requires (e.Number? || e.Quoted?) && t.fault.None? && !t.skip && Has(t.code, t.pc, Compile(h, e))
    ensures Run(h, t, 1) == t.(pc := t.pc + Len(Compile(h, e)), stack := t.stack + [LiteralOperand(h, e, t.gl)])
  {
    hide Run, Has, Len;
    StepOnce(h, t, if e.Number? then Dbl(h.strtod(e.token)) else Text(AS_STRING, e.text));
  }

  /** The machine stands in front of the code of a block that returns a literal. */
  ghost predicate AtLiteral(h: Host, v: State, e: Expr)
    requires e.Number? || e.Quoted?
  {
    var r := Compile(h, e);
    v.fault.None? && !v.skip && v.runFlag[v.gl] == RUN_BLOCK && Has(v.code, v.pc, [Op(BLOCK_START)]) &&
    Has(v.code, v.pc + 1, [Op(CLEAR_STACK)]) && Has(v.code, v.pc + 2, r) && Has(v.code, v.pc + 2 + Len(r), [Op(RETURN)])
  }

  lemma LiteralEnters(h: Host, c: Linked, s: State, w: World, f: Name)
    requires LinkedOk(h, c) && Holds(c, s, w, s.gl, false) && s.gl < 255 && f in c.p.fns && ReturnsLiteral(c.p.fns[f])
    requires Has(s.code, s.pc, CallCode(0, f))
    ensures var v := Run(h, s, 2);
            Holds(c, v, w, s.gl as int + 1, false) && v.stack == s.stack && AtLiteral(h, v, c.p.fns[f].ret.value) &&
            v.retPoint[v.gl] == s.pc + Len(CallCode(0, f))
  {
    hide Has, Run, Represents, Kept, Len, CallCode, Compile;
    assert FnLinked(h, c, f);
    assert s.stack == s.stack + [];
    CallJumps(h, c, s, w, f, s.stack, []);
    assert s.stack + Reversed([]) == s.stack;
    LiteralParts(h, c.p.fns[f], c.code, c.blocks[f].pos);
  }

  /** Calling such a block clears the stack down to the caller's level before the result is pushed. */
  lemma LiteralCall(h: Host, c: Linked, s: State, w: World, f: Name)
    requires LinkedOk(h, c) && Holds(c, s, w, s.gl, false) && s.gl < 255 && f in c.p.fns && ReturnsLiteral(c.p.fns[f])
    requires Has(s.code, s.pc, CallCode(0, f))
    ensures var t, g := Run(h, s, 6), s.gl + 1;
            Holds(c, t, w, s.gl, false) && t.pc == s.pc + Len(CallCode(0, f)) &&
            t.stack == Cleared(s.stack, g) + [LiteralOperand(h, c.p.fns[f].ret.value, g)]
  {
    hide Has, Run, Represents, Len, Cleared, CallCode, LinkedOk, LiteralOperand, AtLiteral, FnLinked;
    LiteralEnters(h, c, s, w, f);
    LiteralReturns(h, Run(h, s, 2), c.p.fns[f]);
    RunAdd(h, s, 2, 4);
  }

  lemma LiteralReturns(h: Host, v: State, fn: Fn)
    requires ReturnsLiteral(fn) && AtLiteral(h, v, fn.ret.value)
    ensures Run(h, v, 4) == v.(pc := v.retPoint[v.gl], gl := Dec(v.gl),
                               stack := Cleared(v.stack, v.gl) + [LiteralOperand(h, fn.ret.value, v.gl)])
  {
    hide Has, Run, Len, Cleared, Compile;
    StepOpen(h, v);
    var v1 := Run(h, v, 1);
    StepClear(h, v1);
    var v2 := Run(h, v1, 1);
    StepLiteral(h, v2, fn.ret.value);
    var v3 := Run(h, v2, 1);
    StepReturn(h, v3, v2.stack, LiteralOperand(h, fn.ret.value, v.gl));
    ClearedTwice(v.stack, v.gl);
    RunAdd(h, v, 1, 1);
    RunAdd(h, v, 2, 1);
    RunAdd(h, v, 3, 1);
  }

  lemma {:induction false} ClearedTwice(stack: seq<Operand>, g: Byte)
    ensures Cleared(Cleared(stack, g), g) == Cleared(stack, g)
    decreases |stack|
  {
    if stack != [] && stack[|stack| - 1].level >= g {
      ClearedTwice(stack[..|stack| - 1], g);
    }
  }

  /** `f() + g()` with literal blocks always has a meaning; the machine computes it exactly when f returns a
      number. A string result of f is tagged with the block's level, and calling g throws it away. */
  lemma SumOfLiterals(h: Host, c: Linked, s: State, w: World, f: Name, g: Name)
    requires LinkedOk(h, c) && Holds(c, s, w, s.gl, false) && s.gl < 255 && s.stack == []
    requires f in c.p.fns && ReturnsLiteral(c.p.fns[f]) && g in c.p.fns && ReturnsLiteral(c.p.fns[g])
    requires Has(s.code, s.pc, Compile(h, Bin(BinOp.Add, Call(f, []), Call(g, []))))
    ensures var a, b := LiteralOperand(h, c.p.fns[f].ret.value, 0).v, LiteralOperand(h, c.p.fns[g].ret.value, 0).v;
            Apply(h, BinOp.Add, a, b).Ok?
    ensures var t := Run(h, s, 13);
            if c.p.fns[f].ret.value.Number? then
              t.fault.None? && |t.stack| == 1 &&
              var a, b := LiteralOperand(h, c.p.fns[f].ret.value, 0).v, LiteralOperand(h, c.p.fns[g].ret.value, 0).v;
              Ok(t.stack[0].v) == Apply(h, BinOp.Add, a, b)
            else t.fault == Some(RuntimeError)
  {
    hide Has, Run, Represents, Len, LinkedOk, CallCode;
    SumParts(h, f, g, s.code, s.pc);
    LiteralCall(h, c, s, w, f);
    var t1 := Run(h, s, 6);
    LiteralCall(h, c, t1, w, g);
    var t2 := Run(h, t1, 6);
    RunAdd(h, s, 6, 6);
    StepOnce(h, t2, Op(ADD));
    RunAdd(h, s, 12, 1);
    var a := LiteralOperand(h, c.p.fns[f].ret.value, s.gl + 1);
    assert t1.stack == [a];
    if a.level == 0 {
      assert Cleared([a], s.gl + 1) == [a];
    } else {
      assert Cleared([a], s.gl + 1) == Cleared([], s.gl + 1) by { assert [a][..0] == []; }
    }
  }

  lemma SumParts(h: Host, f: Name, g: Name, code: seq<Byte>, pc: nat)
    requires Has(code, pc, Compile(h, Bin(BinOp.Add, Call(f, []), Call(g, []))))
    ensures var a := Len(CallCode(0, f));
            Has(code, pc, CallCode(0, f)) && Has(code, pc + a, CallCode(0, g)) &&
            Has(code, pc + a + Len(CallCode(0, g)), [Op(ADD)])
  {
    hide Has, Len, CallCode;
    assert Compile(h, Call(f, [])) == CallCode(0, f) by { assert [] + CallCode(0, f) == CallCode(0, f); }
    assert Compile(h, Call(g, [])) == CallCode(0, g) by { assert [] + CallCode(0, g) == CallCode(0, g); }
    HasConcat(code, pc, CallCode(0, f) + CallCode(0, g), [Op(ADD)]);
    HasConcat(code, pc, CallCode(0, f), CallCode(0, g));
  }

  // ----- operands left behind by a block -----

  /** Assignment writes to the entry below the value. If the right-hand side left operands behind, that is
      the last of them: the variable on the left is meant exactly when nothing was left, or the same variable. */
  lemma AssignmentTarget(h: Host, s: State, rest: seq<Operand>, a: Operand, left: seq<Operand>, b: Operand, x: Name)
    requires s.fault.None? && !s.skip && Has(s.code, s.pc, [Op(SET)]) && s.stack == rest + [a] + left + [b]
    requires a.from == Some(x) && Lookup(s.vars, x).Some?
    requires left != [] ==> left[|left| - 1].from.Some? && Lookup(s.vars, left[|left| - 1].from.value).Some?
    ensures var y := if left == [] then x else left[|left| - 1].from.value;
            Run(h, s, 1) == s.(pc := s.pc + 1, stack := rest + [a] + left, vars := Put(s.vars, y, b.v)) &&
            (y == x <==> left == [] || left[|left| - 1].from == a.from)
  {
    hide Run, Has, Put, Lookup;
    if left == [] {
      assert rest + [a] + left == rest + [a];
      StepAssign(h, s, rest, a, b);
    } else {
      var init, last := left[..|left| - 1], left[|left| - 1];
      assert left == init + [last];
      assert s.stack == (rest + [a] + init) + [last] + [b];
      StepAssign(h, s, rest + [a] + init, last, b);
      assert rest + [a] + init + [last] == rest + [a] + left;
    }
  }

  // ----- arguments that are missing -----

  /** A parameter is refused exactly if the counter of arguments is at 0. A call without arguments does not set that
      counter: what an earlier call has left of it lets the parameter take an operand of the caller. */
  lemma MissingArgument(h: Host, s: State, x: Name)
    requires s.fault.None? && !s.skip && Has(s.code, s.pc, [Tok(PARAM, x)]) && s.stack != []
    ensures Run(h, s, 1).fault == Some(RuntimeError) <==> s.paramCount == 0
    ensures s.paramCount != 0 ==> Run(h, s, 1).stack == s.stack[..|s.stack| - 1]
  {
    hide Run, Has, Put, Tables.Declare;
    if s.paramCount == 0 {
      StepOnce(h, s, Tok(PARAM, x));
    } else {
      var n := |s.stack| - 1;
      assert s.stack == s.stack[..n] + [s.stack[n]];
      StepParam(h, s, x, s.stack[..n], s.stack[n]);
    }
  }

  /** The counter behind a call, as it was if there are no arguments. */
  lemma ArgumentCounter(h: Host, s: State, f: Name, n: nat)
    requires s.fault.None? && !s.skip && n < 256 && |s.stack| >= n && Has(s.code, s.pc, [CallCode(n, f)[0]])
    ensures Run(h, s, 1).fault.None? && Run(h, s, 1).paramCount == if n > 0 then n else s.paramCount
  {
    hide Run, Has, Reversed;
    StepOnce(h, s, CallCode(n, f)[0]);
  }

  // ----- parameters with a default value -----

  /** The argument below the default is taken if one is left and it is set, else the default. Whatever lies below
      the default goes with it: where no argument is left, that is an operand of the caller, which is lost exactly
      if there is one. */
  lemma DefaultParameter(h: Host, s: State, m: map<Name, Value>, x: Name, rest: seq<Operand>, d: Operand)
    requires s.fault.None? && !s.skip && Has(s.code, s.pc, [Tok(PARAMX, x)]) && s.stack == rest + [d]
    requires Represents(s.vars, m)
    ensures var t, n := Run(h, s, 1), |rest|;
            var given := n > 0 && s.paramCount > 0 && rest[n - 1].v != Unset;
            t.fault.None? && t.pc == s.pc + |x| + 2 && t.paramCount == s.paramCount - 1 &&
            Represents(t.vars, m[x := if given then rest[n - 1].v else d.v]) &&
            t.stack == (if n > 0 then rest[..n - 1] else []) && (t.stack == rest <==> rest == [])
  {
    hide Run, Has, Represents, Put, Tables.Declare, TakeParamOr;
    var n := |rest|;
    var v := if n > 0 && s.paramCount > 0 && rest[n - 1].v != Unset then rest[n - 1].v else d.v;
    StepDefault(h, s, x);
    TakesOr(s.(pc := s.pc + |x| + 2), x, rest, d, v);
    Bound(s.vars, m, x, v);
  }

  lemma StepDefault(h: Host, s: State, x: Name)
    requires s.fault.None? && !s.skip && Has(s.code, s.pc, [Tok(PARAMX, x)])
    ensures Run(h, s, 1) == TakeParamOr(s.(pc := s.pc + |x| + 2), x)
  {
    hide Run, Has, TakeParamOr, ReadVar, DefineVar, EnterBlock, TakeParam, DefineBlock;
    StepOnce(h, s, Tok(PARAMX, x));
  }

  lemma Bound(t: Vars, m: map<Name, Value>, x: Name, v: Value)
    requires Represents(t, m)
    ensures Represents(Put(Tables.Declare(t, x, Null), x, v), m[x := v])
  {
    hide Represents, Put, Tables.Declare;
    DeclareRepresents(t, m, x, Null);
    var m1 := if x in m then m else m[x := Null];
    PutRepresents(Tables.Declare(t, x, Null), m1, x, v);
    assert m1[x := v] == m[x := v];
  }

  lemma TakesOr(s: State, x: Name, rest: seq<Operand>, d: Operand, v: Value)
    requires s.stack == rest + [d]
    requires v == if |rest| > 0 && s.paramCount > 0 && rest[|rest| - 1].v != Unset then rest[|rest| - 1].v else d.v
    ensures TakeParamOr(s, x) == s.(paramCount := s.paramCount - 1, vars := Put(Tables.Declare(s.vars, x, Null), x, v),
                                    stack := if |rest| > 0 then rest[..|rest| - 1] else [])
  {
    hide Put, Tables.Declare;
    if |rest| > 0 { assert s.stack[..|s.stack| - 2] == rest[..|rest| - 1]; }
  }

  // ----- definitions -----

  /** A definition becomes callable by its own name exactly when no block has been called before: the block
      last called is never forgotten, and its name is put in front. */
  lemma LateDefinition(h: Host, s: State, name: Name, body: seq<Instr>, d: nat)
    returns (n: nat)
    requires s.fault.None? && !s.skip && s.level == 0 && !s.defMode
    requires QualifiedName(s, name) !in s.blocks && name !in s.blocks && d < 255 && Balanced(body, d)
    requires Has(s.code, s.pc, [Tok(BLOCK_DEF, name)]) && Has(s.code, s.pc + |name| + 2, Braced(body))
    ensures var t := Run(h, s, n);
            t.fault.None? && t.thisBlock == s.thisBlock && (name in t.blocks <==> s.thisBlock.None?) &&
            (s.thisBlock.Some? ==> EnterBlock(t, name).fault == Some(RuntimeError))
  {
    hide Run, Has, Balanced, Patched;
    n := DefineOnce(h, s, name, body, d);
    if s.thisBlock.Some? {
      assert |QualifiedName(s, name)| > |name|;
    }
  }

  /** After a call has been executed, whatever runs in between, a new definition is not callable by its own
      name: no way of leaving a block forgets it as the block one is in. */
  lemma DefinedAfterCall(h: Host, s: State, f: Name, m: nat, name: Name, body: seq<Instr>, d: nat)
    returns (n: nat)
    requires s.fault.None? && !s.skip && Has(s.code, s.pc, [Tok(CALL, f)]) && f in s.blocks && m > 0
    requires var t := Run(h, s, m);
             t.fault.None? && !t.skip && t.level == 0 && !t.defMode &&
             QualifiedName(t, name) !in t.blocks && name !in t.blocks && d < 255 && Balanced(body, d) &&
             Has(t.code, t.pc, [Tok(BLOCK_DEF, name)]) && Has(t.code, t.pc + |name| + 2, Braced(body))
    ensures m <= n && EnterBlock(Run(h, s, n), name).fault == Some(RuntimeError)
  {
    hide Run, Has, Balanced, EnterBlock, QualifiedName;
    StepCall(h, s, f);
    RunAdd(h, s, 1, m - 1);
    BlockStays(h, Run(h, s, 1), m - 1);
    var k := LateDefinition(h, Run(h, s, m), name, body, d);
    RunAdd(h, s, m, k);
    n := m + k;
  }

  lemma {:induction false} SkipToEnd(h: Host, s: State, ins: seq<Instr>, k: nat)
    requires !s.fault.Some? && s.skip && Has(s.code, s.pc, ins) && Op(BLOCK_END) !in ins
    requires Scan(ins, s.level) == Some(k)
    ensures k < 256 && Run(h, s, |ins|) == s.(pc := s.pc + Len(ins), level := k)
    decreases |ins|
  {
    hide Step, Decode, Encode;
    if ins != [] {
      var i, rest := ins[0], ins[1..];
      assert ins == [i] + rest;
      HasConcat(s.code, s.pc, [i], rest);
      assert Len([i]) == Size(i);
      if i == Op(BLOCK_START) {
        SkipBrace(h, s, i);
      } else {
        SkipOne(h, s, i);
      }
      SkipToEnd(h, Step(h, s), rest, k);
    }
  }

  /** The instructions in front of the first block end. */
  function BeforeEnd(ins: seq<Instr>): (r: seq<Instr>)
    requires Op(BLOCK_END) in ins
    ensures |r| < |ins| && r == ins[..|r|] && Op(BLOCK_END) !in r && ins[|r|] == Op(BLOCK_END)
  {
    if ins[0] == Op(BLOCK_END) then [] else [ins[0]] + BeforeEnd(ins[1..])
  }

  /** Defining a name a second time: block_add returns nothing, and the first block end behind the definition
      follows that null pointer. */
  lemma RedefinitionFaults(h: Host, s: State, name: Name, body: seq<Instr>, d: nat)
    returns (n: nat)
    requires s.fault.None? && !s.skip && s.level == 0 && !s.defMode
    requires QualifiedName(s, name) in s.blocks && d < 255 && Balanced(body, d)
    requires Has(s.code, s.pc, [Tok(BLOCK_DEF, name)]) && Has(s.code, s.pc + |name| + 2, Braced(body))
    ensures Run(h, s, n).fault == Some(Undefined)
  {
    hide Run, Has, Step, Decode, Len, QualifiedName, Encode, Balanced;
    StepRedefine(h, s, name);
    var t := Run(h, s, 1);
    PatchedLocal(s.code, s.pc, |name|);
    hide Patched;
    HasLocal(s.code, t.code, s.pc + |name| + 2, Braced(body));
    n := EndWithoutParent(h, t, body, d);
    RunAdd(h, s, 1, n);
    n := 1 + n;
  }

  /** A definition of the list has a name that is known, or that an earlier one has. */
  predicate Clashes(ds: seq<Def>, known: set<Name>) {
    ds != [] && (ds[0].name in known || Clashes(ds[1..], known + {ds[0].name}))
  }

  lemma {:induction false} ClashesIff(ds: seq<Def>, known: set<Name>)
    ensures Clashes(ds, known) <==> !DistinctDefs(ds) || exists d :: d in ds && d.name in known
    decreases |ds|
  {
    if ds != [] {
      var d, more := ds[0], ds[1..];
      ClashesIff(more, known + {d.name});
      assert DistinctDefs(ds) <==> DistinctDefs(more) && forall e :: e in more ==> e.name != d.name by {
        HeadDistinct(ds);
      }
      assert forall e :: e in ds <==> e == d || e in more;
    }
  }

  lemma HeadDistinct(ds: seq<Def>)
    requires ds != []
    ensures DistinctDefs(ds) <==> DistinctDefs(ds[1..]) && forall e :: e in ds[1..] ==> e.name != ds[0].name
  {
    if DistinctDefs(ds[1..]) && forall e :: e in ds[1..] ==> e.name != ds[0].name {
      forall i, j | 0 <= i < j < |ds| ensures ds[i].name != ds[j].name {
        assert ds[j] == ds[1..][j - 1] && ds[j] in ds[1..];
        if i > 0 { assert ds[i] == ds[1..][i - 1]; }
      }
    }
  }

  /** Passing over definitions one of which clashes. */
  lemma {:induction false} ClashFaults(h: Host, p: Prog, ds: seq<Def>, rest: seq<Instr>, s: State)
    returns (n: nat)
    requires CanDefine(s) && Clashes(ds, s.blocks.Keys) && Has(s.code, s.pc, DefsCode(h, ds) + rest)
    requires forall d :: d in ds ==> WfFn(p, d.fn)
    ensures Run(h, s, n).fault == Some(Undefined)
    decreases |ds|
  {
    hide Run, Has, FnCode, WfFn, DefCode, Recorded;
    var d, more := ds[0], ds[1..];
    DefsLen(h, ds, rest, s.code, s.pc);
    hide DefsCode, Len;
    if d.name in s.blocks {
      n := FirstClashes(h, p, d, DefsCode(h, more) + rest, s);
    } else {
      n := DefineOne(h, p, d, DefsCode(h, more) + rest, s);
      var m := ClashFaults(h, p, more, rest, Run(h, s, n));
      RunAdd(h, s, n, m);
      n := n + m;
    }
  }

  lemma FirstClashes(h: Host, p: Prog, d: Def, rest: seq<Instr>, s: State)
    returns (n: nat)
    requires CanDefine(s) && d.name in s.blocks && WfFn(p, d.fn)
    requires Has(s.code, s.pc, DefCode(h, d.name, d.fn) + rest)
    ensures Run(h, s, n).fault == Some(Undefined)
  {
    hide Run, Has, Balanced, CompileStmts, ReturnCode, ParamCode, Braced, Len;
    var f := d.fn;
    DefParts(s.code, s.pc, d.name, FnCode(h, f), rest);
    FnBalanced(h, p, f);
    n := RedefinitionFaults(h, s, d.name, ParamCode(f.params) + CompileStmts(h, f.body) + ReturnCode(h, f.ret),
                            Nest(f.body));
  }

  /** A whole program comes through its definitions if they have distinct names, and writes through a null
      pointer before its first statement if they have not. */
  lemma RepeatedDefinition(h: Host, src: Source, p: Prog)
    returns (n: nat)
    requires WfStmts(p, src.main) && forall d :: d in src.defs ==> WfFn(p, d.fn) && |d.name| < 256
    ensures var t := Run(h, Initial(h, src), n);
            if DistinctDefs(src.defs) then Defined(h, src.defs, CompileStmts(h, src.main), Initial(h, src), t)
            else t.fault == Some(Undefined)
  {
    hide Run, Has, WfFn, WfStmts, Recorded, Passed, Clashes, DefsCode, CompileStmts, Flatten, DistinctDefs, Len;
    var s := Initial(h, src);
    CodeInPlace(h, src, p);
    if DistinctDefs(src.defs) {
      n := DefineAll(h, p, src.defs, CompileStmts(h, src.main), s);
    } else {
      ClashesIff(src.defs, {});
      assert s.blocks.Keys == {};
      n := ClashFaults(h, p, src.defs, CompileStmts(h, src.main), s);
    }
  }

  lemma DefinesOld(s: State, name: Name)
    requires s.pc <= |s.code| && s.pc >= |name| + 2 && QualifiedName(s, name) in s.blocks
    ensures DefineBlock(s, name) == s.(code := Patched(s.code, s.pc - |name| - 2, |name|), parentBlock := None,
                                       skip := true, defMode := true)
  {
    hide Patched, QualifiedName;
  }

  lemma StepRedefine(h: Host, s: State, name: Name)
    requires s.fault.None? && !s.skip && Has(s.code, s.pc, [Tok(BLOCK_DEF, name)])
    requires QualifiedName(s, name) in s.blocks
    ensures s.pc + |name| + 2 <= |s.code|
    ensures Run(h, s, 1) == s.(pc := s.pc + |name| + 2, code := Patched(s.code, s.pc, |name|),
                               parentBlock := None, skip := true, defMode := true)
  {
    hide Run, Has, Step, Patched, ExecOp, DefineBlock, ReadVar, DefineVar, EnterBlock, TakeParam, TakeParamOr,
        CallForeign;
    hide ReverseTop, Decode;
    DefinitionFits(s.code, s.pc, name);
    StepOnce(h, s, Tok(BLOCK_DEF, name));
    DefinesOld(s.(pc := s.pc + |name| + 2), name);
  }

  lemma PrefixScans(body: seq<Instr>, k: nat, d: nat)
    requires d < 255 && Balanced(body, d) && k <= |body|
    ensures Scan(body[..k], 1).Some?
  {
    assert Scan(body, 1) == Some(1);
    assert body == body[..k] + body[k..];
    ScanConcat(body[..k], body[k..], 1);
    hide Scan;
  }

  /** The first block end of a braced body, and the opening braces in front of it. */
  lemma FirstEnd(body: seq<Instr>, d: nat)
    returns (pre: seq<Instr>, post: seq<Instr>)
    requires d < 255 && Balanced(body, d)
    ensures body + [Op(BLOCK_END)] == pre + ([Op(BLOCK_END)] + post)
    ensures Op(BLOCK_END) !in pre && Scan(pre, 1).Some?
  {
    hide Scan, Balanced, BeforeEnd;
    var all := body + [Op(BLOCK_END)];
    assert all[|body|] == Op(BLOCK_END);
    pre := BeforeEnd(all);
    post := all[|pre| + 1..];
    SplitAt(body, Op(BLOCK_END), |pre|);
    PrefixScans(body, |pre|, d);
  }

  lemma SplitAt(body: seq<Instr>, last: Instr, k: nat)
    requires k <= |body|
    ensures var all := body + [last]; all[..k] == body[..k] && all == all[..k] + ([all[k]] + all[k + 1..])
  {
  }

  lemma EndWithoutParent(h: Host, t: State, body: seq<Instr>, d: nat)
    returns (n: nat)
    requires t.fault.None? && t.skip && t.level == 0 && t.defMode && t.parentBlock.None?
    requires d < 255 && Balanced(body, d) && Has(t.code, t.pc, Braced(body))
    ensures Run(h, t, n).fault == Some(Undefined)
  {
    hide Run, Has, Step, Decode, Len, Encode, Balanced, Scan;
    var pre, post := FirstEnd(body, d);
    assert Braced(body) == [Op(BLOCK_START)] + (pre + ([Op(BLOCK_END)] + post));
    HasConcat(t.code, t.pc, [Op(BLOCK_START)], pre + ([Op(BLOCK_END)] + post));
    SkipBrace(h, t, Op(BLOCK_START));
    RunOne(h, t);
    var t1 := Run(h, t, 1);
    OneLen();
    HasConcat(t.code, t1.pc, pre, [Op(BLOCK_END)] + post);
    SkipToEnd(h, t1, pre, Scan(pre, 1).value);
    var t2 := Run(h, t1, |pre|);
    HasConcat(t.code, t2.pc, [Op(BLOCK_END)], post);
    StepNullParent(h, t2);
    n := 1 + |pre| + 1;
    RunAdd(h, t, 1, |pre|);
    RunAdd(h, t, 1 + |pre|, 1);
  }

  lemma OneLen()
    ensures Len([Op(BLOCK_START)]) == 1
  {
  }

  lemma RunOne(h: Host, s: State)
    requires !Halted(s)
    ensures Run(h, s, 1) == Step(h, s)
  {
    hide Step;
    assert Run(h, s, 1) == Run(h, Step(h, s), 0);
  }

  lemma StepNullParent(h: Host, s: State)
    requires s.fault.None? && s.skip && s.defMode && s.parentBlock.None? && Has(s.code, s.pc, [Op(BLOCK_END)])
    ensures Run(h, s, 1).fault == Some(Undefined)
  {
    HasOne(s.code, s.pc, Op(BLOCK_END));
    RunOne(h, s);
  }

  // ----- text -----

  /** `name[i] == e` is never accepted: the first equals sign is taken for an assignment. */
  lemma ElementComparison(s: Input, pos: nat, name: Name)
    requires pos < |s| && Sum(s, pos).Good?
    requires var p := Sum(s, pos).pos; s[pos] != CLOSE_SQUARE && s[p] == CLOSE_SQUARE
    requires var q := Spaces(s, Sum(s, pos).pos + 1); s[q] == EQUALS && s[q + 1] == EQUALS
    ensures Indexed(s, pos, name).Bad?
  {
    var q := Spaces(s, Sum(s, pos).pos + 1);
    NoOperand(s, q + 1);
    hide Sum;
  }

  lemma NoOperand(s: Input, pos: nat)
    requires pos < |s| && s[pos] == EQUALS
    ensures Sum(s, pos).Bad? && Spaces(s, pos) == pos
  {
    assert NumberEnd(s, pos) == pos;
    assert Atom(s, pos).Bad?;
    hide Atom;
    assert Grammar.Unary(s, pos).Bad?;
    hide Grammar.Unary;
    assert Power(s, pos).Bad?;
    hide Power;
    assert Product(s, pos).Bad?;
    hide Product;
  }

  /** An opening brace glued to the condition is swallowed: no block start is emitted for it. */
  lemma GluedBrace(h: Host, y: Style, c: Input, pos: nat, w: Name, e: Expr)
    requires WfStyle(y) && (w == IF_WORD || w == WHILE_WORD) && Printable(e) && Scannable(false, e)
    requires At(c, pos, Line(y, w + (Enclosed(e, y.ws) + [OPEN_BRACE])))
    requires pos + |Line(y, w + (Enclosed(e, y.ws) + [OPEN_BRACE]))| < |c| < 0x1_0000_0000_0000_0000
    ensures Goes(h, c, pos, false, Guard(h, if w == IF_WORD then IF else WHILE, e),
                 pos + |Lead(y)| + |w| + |Enclosed(e, y.ws)| + 1, false)
  {
    hide ReadToken, Goes, ExprAt, ExprEnd, CondEnd, BlockHead, Compile, Printable, Declarations, Body;
    KeywordRead(y, c, pos, w, Enclosed(e, y.ws) + [OPEN_BRACE], NEWLINE);
    LineParts(y, c, pos, w + (Enclosed(e, y.ws) + [OPEN_BRACE]), NEWLINE);
    var p := pos + |Lead(y)| + |w|;
    AtSplit(c, p, Enclosed(e, y.ws), [OPEN_BRACE]);
    assert [] + Enclosed(e, y.ws) == Enclosed(e, y.ws);
    hide Enclosed;
    ConditionRead(h, y, c, p, [], e);
    GoesOne(h, c, pos, false, Guard(h, if w == IF_WORD then IF else WHILE, e), p + |Enclosed(e, y.ws)| + 1, false);
  }

  /** Behind an empty list of parameters the block's brace is refused on the same line, and only there. */
  lemma EmptyParameters(h: Host, c: Input, pos: nat)
    requires pos + 1 < |c| && c[pos] == CLOSE && Delimits(c[pos + 1])
    requires var q := Blanks(c, pos + 1); c[q] == NEWLINE || c[q] == OPEN_BRACE
    ensures var q := Blanks(c, pos + 1);
            Declarations(h, c, pos, true) == if c[q] == NEWLINE then Upto([], q) else Stop(RuntimeError)
  {
    hide ReadToken, Assigned;
    assert At(c, pos, [] + [CLOSE]);
    TokenRead(c, pos, [], [CLOSE]);
  }

  // ----- a text without a last newline -----

  /** When only one line with an expression is left and that expression compiles, the digestion reads behind the
      end of the text exactly if no newline, comma or surplus parenthesis ends that line. */
  lemma LastLine(h: Host, c: Input, pos: nat, a: bool)
    requires pos < |c| && c[pos] != NUL && ReadToken(c, pos).Upto? && !Keyword(ReadToken(c, pos).value)
    requires var end := ExprEnd(c, pos, false, 0);
             |c| - 2 <= end < |c| && ExprAt(h, c, pos, end).Upto?
    ensures var end := ExprEnd(c, pos, false, 0);
            Digested(h, c, pos, a) ==
            if end == |c| - 1 then Stop(Undefined) else Upto(ExprAt(h, c, pos, end).value, |c| - 1)
  {
    hide ReadToken, ExprEnd, ExprAt, Declarations, BlockHead, CondEnd;
    var end := ExprEnd(c, pos, false, 0);
    assert Statement(h, c, pos, a) == Upto((ExprAt(h, c, pos, end).value, a), end + 1);
    hide Statement;
    var ins := ExprAt(h, c, pos, end).value;
    if end == |c| - 2 {
      assert Digested(h, c, |c| - 1, a) == Upto([], |c| - 1);
      assert ins + [] == ins;
    } else {
      assert Digested(h, c, |c|, a) == Stop(Undefined);
    }
  }
}
