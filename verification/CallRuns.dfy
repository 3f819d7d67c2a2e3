/** Entering a block, returning from it or falling off its end. */
module CallRuns {
  import opened Bytes
  import opened Bytecode
  import opened Values
  import opened Tables
  import opened Machine
  import opened Syntax
  import opened Semantics
  import opened Fragment
  import opened Steps
  import opened Operands
  import opened Branches

  // ----- calls -----

  /** A call has bound its arguments: the machine stands at the first statement of the block. */
  ghost predicate Entered(h: Host, c: Linked, f: Fn, v: State, w: World, g: nat, back: nat, pos: nat,
                          below: seq<Operand>)
  {
    0 < g < 256 && Holds(c, v, w, g, false) && v.stack == below && v.runFlag[g] == RUN_BLOCK && v.retPoint[g] == back &&
    v.pc == pos + 1 + Len(ParamCode(f.params)) && Has(v.code, pos, FnCode(h, f))
  }

  lemma FnParts(h: Host, f: Fn, code: seq<Byte>, pos: nat)
    requires Has(code, pos, FnCode(h, f))
    ensures var p, b, r := Len(ParamCode(f.params)), Len(CompileStmts(h, f.body)), Len(ReturnCode(h, f.ret));
            Has(code, pos, [Op(BLOCK_START)]) && Has(code, pos + 1, ParamCode(f.params)) &&
            Has(code, pos + 1 + p, CompileStmts(h, f.body)) && Has(code, pos + 1 + p + b, ReturnCode(h, f.ret)) &&
            Has(code, pos + 1 + p + b + r, [Op(BLOCK_END)])
  {
    hide Has, Len, Braced, CompileStmts, ReturnCode, ParamCode;
    var ps, b, r := ParamCode(f.params), CompileStmts(h, f.body), ReturnCode(h, f.ret);
    BracedParts(code, pos, ps + b + r);
    HasConcat(code, pos + 1, ps + b, r);
    HasConcat(code, pos + 1, ps, b);
  }

  lemma CallParts(h: Host, f: Name, n: nat, code: seq<Byte>, pc: nat)
    requires Has(code, pc, CallCode(n, f))
    ensures Has(code, pc, [CountCode(n)]) && Has(code, pc + Len([CountCode(n)]), [Tok(CALL, f)])
    ensures Len(CallCode(n, f)) == Len([CountCode(n)]) + Len([Tok(CALL, f)])
  {
    hide Has, Len;
    HasConcat(code, pc, [CountCode(n)], [Tok(CALL, f)]);
    assert CallCode(n, f) == [CountCode(n)] + [Tok(CALL, f)];
  }

  lemma UnknownBlock(h: Host, c: Linked, t: State, f: Name, below: seq<Operand>, ops: seq<Operand>)
    requires t.fault.None? && !t.skip && t.stack == below + ops && |ops| < 256 && f !in t.blocks
    requires Has(t.code, t.pc, CallCode(|ops|, f))
    ensures Run(h, t, 2).fault == Some(RuntimeError)
  {
    hide Has, Run, Len;
    CallParts(h, f, |ops|, t.code, t.pc);
    StepCount(h, t, below, ops);
    StepCall(h, Run(h, t, 1), f);
    RunAdd(h, t, 1, 1);
  }

  lemma CallJumps(h: Host, c: Linked, t: State, w: World, f: Name, below: seq<Operand>, ops: seq<Operand>)
    requires Holds(c, t, w, t.gl, false) && t.stack == below + ops && |ops| < 256 && f in t.blocks && t.gl < 255
    requires Has(t.code, t.pc, CallCode(|ops|, f))
    ensures !Halted(t)
    ensures var v := Run(h, t, 2);
            Holds(c, v, w, t.gl as int + 1, false) && Kept(t, v, t.gl) && v.stack == below + Reversed(ops) &&
            v.runFlag[v.gl] == RUN_BLOCK && v.retPoint[v.gl] == t.pc + Len(CallCode(|ops|, f)) &&
            v.pc == t.blocks[f].pos && (ops != [] ==> v.paramCount == |ops|)
  {
    hide Represents, Has, Run, Len, Kept, CallCode, CountCode, Reversed, Halted;
    CallParts(h, f, |ops|, t.code, t.pc);
    StepCount(h, t, below, ops);
    var t1 := Run(h, t, 1);
    StepCall(h, t1, f);
    RunAdd(h, t, 1, 1);
    CalledState(t, t1, Run(h, t, 2));
  }

  /** Entering a block changes only the levels above the caller's. */
  lemma CalledState(t: State, t1: State, v: State)
    requires t.gl < 255 && t1.gl == t.gl && t1.runFlag == t.runFlag && t1.retPoint == t.retPoint
    requires v.runFlag == t1.runFlag[Inc(t1.gl) := RUN_BLOCK] &&
             v.retPoint == t1.retPoint[Inc(t1.gl) := v.retPoint[Inc(t1.gl)]]
    ensures Kept(t, v, t.gl)
  {
    KeptAbove(t, v, t.gl);
  }

  lemma SimEnter(h: Host, c: Linked, t: State, w: World, f: Name, below: seq<Operand>, ops: seq<Operand>)
    returns (n: nat)
    requires LinkedOk(h, c) && f in c.p.fns && |ops| == |c.p.fns[f].params| && |ops| < 256 && t.gl < 255
    requires Holds(c, t, w, t.gl, false) && t.stack == below + ops && Has(t.code, t.pc, CallCode(|ops|, f))
    ensures n >= 1 && !Halted(t)
    ensures var v := Run(h, t, n);
            Kept(t, v, t.gl) &&
            Entered(h, c, c.p.fns[f], v, w.(vars := Bind(c.p.fns[f].params, ValuesOf(ops), w.vars)), t.gl as int + 1,
                    t.pc + Len(CallCode(|ops|, f)), c.blocks[f].pos, below)
  {
    hide Represents, Has, Run, Len, Kept, FnCode, Bind;
    var fn := c.p.fns[f];
    assert f in c.blocks && FnLinked(h, c, f) && WfFn(c.p, fn);
    CallJumps(h, c, t, w, f, below, ops);
    var v1 := Run(h, t, 2);
    FnParts(h, fn, c.code, c.blocks[f].pos);
    StepOpen(h, v1);
    var v2 := Run(h, v1, 1);
    SimParams(h, c, v2, w, fn.params, below, ops);
    n := 2 + 1 + |fn.params|;
    RunAdd(h, t, 2, 1);
    RunAdd(h, t, 3, |fn.params|);
    KeptAbove(v1, Run(h, t, n), t.gl);
    KeptTrans(t, v1, Run(h, t, n), t.gl, t.gl);
  }

  // ----- leaving a block -----

  ghost predicate Returned(h: Host, c: Linked, v: State, n: nat, fuel: nat, o: Outcome<Item>,
                           base: seq<Operand>, left: seq<Operand>, top: Operand)
  {
    if o.Done? then
      var u := Run(h, v, n);
      v.gl > 0 && Holds(c, u, o.w, v.gl as int - 1, false) && Kept(v, u, v.gl) && u.pc == v.retPoint[v.gl] &&
      u.stack == base + left + [top] && Shielded(base + left, v.gl) &&
      top.v == o.value.v && top.from == None && o.value.from == None
    else Stopped(h, v, n, fuel, o)
  }

  lemma StepLeave(h: Host, t: State)
    requires t.fault.None? && !t.skip && !t.defMode && Has(t.code, t.pc, [Op(BLOCK_END)])
    requires t.runFlag[t.gl] == RUN_BLOCK
    ensures !Halted(t)
    ensures Run(h, t, 1) == t.(pc := t.retPoint[t.gl], gl := Dec(t.gl),
                               stack := Cleared(t.stack, t.gl) + [Operand(Num(h.zero), None, t.gl)])
  {
    hide Step, Run, Has, Cleared;
    StepOnce(h, t, Op(BLOCK_END));
  }

  lemma StepClear(h: Host, t: State)
    requires t.fault.None? && !t.skip && Has(t.code, t.pc, [Op(CLEAR_STACK)])
    ensures !Halted(t) && Run(h, t, 1) == t.(pc := t.pc + 1, stack := Cleared(t.stack, t.gl))
  {
    hide Step, Run, Has, Cleared;
    StepOnce(h, t, Op(CLEAR_STACK));
  }

  lemma StepReturn(h: Host, t: State, rest: seq<Operand>, a: Operand)
    requires t.fault.None? && !t.skip && Has(t.code, t.pc, [Op(RETURN)]) && t.stack == rest + [a]
    requires t.runFlag[t.gl] == RUN_BLOCK
    ensures !Halted(t)
    ensures Run(h, t, 1) == t.(pc := t.retPoint[t.gl], gl := Dec(t.gl),
                               stack := Cleared(rest, t.gl) + [a.(from := None)])
  {
    hide Step, Run, Has, Cleared, Unwound;
    StepOnce(h, t, Op(RETURN));
    assert Dropped(t.stack, 1) == rest;
  }

  lemma ReturnParts(h: Host, e: Expr, code: seq<Byte>, pc: nat)
    requires Has(code, pc, ReturnCode(h, Some(e)))
    ensures Has(code, pc, [Op(CLEAR_STACK)]) && Has(code, pc + 1, Compile(h, e))
    ensures Has(code, pc + 1 + Len(Compile(h, e)), [Op(RETURN)])
  {
    hide Has, Compile;
    HasConcat(code, pc, [Op(CLEAR_STACK)] + Compile(h, e), [Op(RETURN)]);
    HasConcat(code, pc, [Op(CLEAR_STACK)], Compile(h, e));
    assert Len([Op(CLEAR_STACK)]) == 1;
  }

  lemma InvokeNone(h: Host, fns: map<Name, Fn>, f: Fn, vals: seq<Value>, w: World, d: nat, fuel: nat)
    ensures var o := ExecuteAll(h, fns, f.body, w.(vars := Bind(f.params, vals, w.vars)), d, fuel);
            Invoke(h, fns, f, vals, w, d, fuel) ==
            if !o.Done? then o.PropagateFailure()
            else
              match f.ret
              case None => Done(Item(Num(h.zero), None), o.w)
              case Some(e) =>
                var r := Evaluate(h, fns, e, o.w, d, fuel);
                if r.Done? then Done(Item(r.value.v, None), r.w) else r
  {
    hide ExecuteAll, Evaluate, Bind;
  }

  lemma FallsOff(h: Host, c: Linked, v: State, w: World, m: nat, fuel: nat, base: seq<Operand>, left1: seq<Operand>)
    returns (left: seq<Operand>, top: Operand)
    requires v.gl > 0 && Shielded(base, v.gl) && v.runFlag[v.gl] == RUN_BLOCK
    requires var u := Run(h, v, m);
             Holds(c, u, w, v.gl, false) && Kept(v, u, v.gl) && u.stack == base + left1 &&
                 Has(u.code, u.pc, [Op(BLOCK_END)])
    ensures Returned(h, c, v, m + 1, fuel, Done(Item(Num(h.zero), None), w), base, left, top)
    ensures left <= left1 && top.level == v.gl
  {
    hide Represents, Run, Has, Kept, Cleared;
    var u := Run(h, v, m);
    FlagKept(v, u, v.gl);
    StepLeave(h, u);
    left := ClearedShielded(base, left1, v.gl);
    top := Operand(Num(h.zero), None, v.gl);
    RunAdd(h, v, m, 1);
    KeptAbove(u, Run(h, u, 1), v.gl);
    KeptTrans(v, u, Run(h, u, 1), v.gl, v.gl);
  }

  lemma ClearsFirst(h: Host, c: Linked, v: State, w: World, m: nat, base: seq<Operand>, left1: seq<Operand>)
    returns (left: seq<Operand>)
    requires Shielded(base, v.gl)
    requires var u := Run(h, v, m);
             Holds(c, u, w, v.gl, false) && Kept(v, u, v.gl) && u.stack == base + left1 &&
                 Has(u.code, u.pc, [Op(CLEAR_STACK)])
    ensures var u, u1 := Run(h, v, m), Run(h, v, m + 1);
            Holds(c, u1, w, v.gl, false) && Kept(v, u1, v.gl) && u1.stack == base + left && u1.pc == u.pc + 1
    ensures left <= left1
  {
    hide Represents, Run, Has, Kept, Cleared;
    var u := Run(h, v, m);
    StepClear(h, u);
    left := ClearedShielded(base, left1, v.gl);
    RunAdd(h, v, m, 1);
    KeptAbove(u, Run(h, u, 1), v.gl);
    KeptTrans(v, u, Run(h, u, 1), v.gl, v.gl);
  }

  lemma ReturnsTop(h: Host, c: Linked, v: State, w: World, m: nat, fuel: nat, base: seq<Operand>, left1: seq<Operand>,
                   a: Operand)
    returns (left: seq<Operand>, top: Operand)
    requires v.gl > 0 && Shielded(base, v.gl) && v.runFlag[v.gl] == RUN_BLOCK
    requires var u := Run(h, v, m);
             Holds(c, u, w, v.gl, false) && Kept(v, u, v.gl) && u.stack == base + left1 + [a] &&
             Has(u.code, u.pc, [Op(RETURN)])
    ensures Returned(h, c, v, m + 1, fuel, Done(Item(a.v, None), w), base, left, top)
    ensures left <= left1 && top.level == a.level
  {
    hide Represents, Run, Has, Kept, Cleared;
    var u := Run(h, v, m);
    FlagKept(v, u, v.gl);
    StepReturn(h, u, base + left1, a);
    left := ClearedShielded(base, left1, v.gl);
    top := a.(from := None);
    RunAdd(h, v, m, 1);
    KeptAbove(u, Run(h, u, 1), v.gl);
    KeptTrans(v, u, Run(h, u, 1), v.gl, v.gl);
  }

  /** From t the machine enters a block in n2 steps, and the block comes back in n3 more. */
  ghost predicate CameBack(h: Host, c: Linked, t: State, len: nat, n2: nat, n3: nat, fuel: nat, o: Outcome<Item>,
                           base: seq<Operand>, left: seq<Operand>, top: Operand)
    requires fuel > 0
  {
    var v := Run(h, t, n2);
    Kept(t, v, t.gl) && v.gl as int == t.gl as int + 1 && v.retPoint[v.gl] == t.pc + len &&
    Returned(h, c, v, n3, fuel - 1, o, base, left, top)
  }

  lemma EvaluateCall(h: Host, fns: map<Name, Fn>, e: Expr, w: World, d: nat, fuel: nat)
    requires e.Call?
    ensures var o := EvaluateArgs(h, fns, e.args, w, d, fuel);
            Evaluate(h, fns, e, w, d, fuel) ==
            if !o.Done? then o.PropagateFailure()
            else if e.f !in fns then Fail(RuntimeError)
            else if d + 1 > 255 then Unspecified
            else if fuel == 0 then Spent
            else Invoke(h, fns, fns[e.f], o.value, o.w, d + 1, fuel - 1)
    ensures Compile(h, e) == CompileArgs(h, e.args) + CallCode(|e.args|, e.f)
  {
    hide EvaluateArgs, CompileArgs, CallCode, Invoke;
  }

  /** Arguments, entry and return put together; r is what the block makes of them. */
  lemma CallJoined(h: Host, c: Linked, e: Expr, s: State, len: nat, fuel: nat, r: Outcome<Item>, base: seq<Operand>,
                   junk: seq<Operand>, n1: nat, n2: nat, n3: nat, left: seq<Operand>, top: Operand)
    requires fuel > 0 && n2 >= 1 && e.Call?
    requires var t := Run(h, s, n1);
             Kept(s, t, s.gl) && t.gl == s.gl && t.pc + len == s.pc + Len(Compile(h, e)) &&
             CameBack(h, c, t, len, n2, n3, fuel, r, base, left, top)
    requires r.Done? ==> TagFits(c.p, e, s.gl, top.level)
    requires Calls(e) <= c.p.clean ==> left <= junk
    ensures Evaluated(h, c, e, s, n1 + n2 + n3, fuel, r, base, junk, left, top)
  {
    hide Represents, Run, Kept, Len, Calls, Compile;
    var t := Run(h, s, n1);
    var v := Run(h, t, n2);
    RunAdd(h, s, n1, n2);
    RunAdd(h, s, n1 + n2, n3);
    if r.Done? {
      var u := Run(h, v, n3);
      KeptTrans(t, v, u, s.gl, v.gl);
      KeptTrans(s, t, u, s.gl, s.gl);
    }
  }

  /** The whole call, once the arguments are on the stack and the block has returned. */
  lemma CallDone(h: Host, c: Linked, e: Expr, s: State, w: World, fuel: nat, base: seq<Operand>, junk: seq<Operand>,
                 n1: nat, left1: seq<Operand>, ops: seq<Operand>, n2: nat, n3: nat, left: seq<Operand>, top: Operand)
    requires LinkedOk(h, c) && e.Call? && e.f in c.p.fns && Wf(c.p, e) && s.gl < 255 && fuel > 0 && n2 >= 1
    requires s.code == c.code && Has(s.code, s.pc, Compile(h, e))
    requires Gathered(h, c, e.args, s, n1, fuel, EvaluateArgs(h, c.p.fns, e.args, w, s.gl, fuel), base + left1, ops)
    requires var o := EvaluateArgs(h, c.p.fns, e.args, w, s.gl, fuel);
             o.Done? &&
             CameBack(h, c, Run(h, s, n1), Len(CallCode(|ops|, e.f)), n2, n3, fuel,
                      Invoke(h, c.p.fns, c.p.fns[e.f], o.value, o.w, s.gl as int + 1, fuel - 1), base, left, top)
    requires Evaluate(h, c.p.fns, e, w, s.gl, fuel).Done? ==> TagFits(c.p, e, s.gl, top.level)
    requires Calls(e) <= c.p.clean ==> left <= junk
    ensures Evaluated(h, c, e, s, n1 + n2 + n3, fuel, Evaluate(h, c.p.fns, e, w, s.gl, fuel), base, junk, left, top)
  {
    hide Represents, Run, Has, Kept, Len, CompileArgs, EvaluateArgs, Invoke, CallCode, Calls, Wf, Evaluated, CameBack;
    hide Evaluate, Compile;
    EvaluateCall(h, c.p.fns, e, w, s.gl, fuel);
    HasConcat(s.code, s.pc, CompileArgs(h, e.args), CallCode(|e.args|, e.f));
    var o := EvaluateArgs(h, c.p.fns, e.args, w, s.gl, fuel);
    var r := Invoke(h, c.p.fns, c.p.fns[e.f], o.value, o.w, s.gl as int + 1, fuel - 1);
    CallJoined(h, c, e, s, Len(CallCode(|ops|, e.f)), fuel, r, base, junk, n1, n2, n3, left, top);
  }

  lemma StepForeign(h: Host, s: State, below: seq<Operand>, ops: seq<Operand>, lib: Name, fn: Name)
    requires s.fault.None? && !s.skip && s.stack == below + ops && |ops| < 256
    requires Has(s.code, s.pc, [Xcall(lib, fn, |ops|)])
    ensures !Halted(s)
    ensures var r := h.foreign(lib, fn, ValuesOf(ops));
            if r.Ok? then
              Run(h, s, 1) == s.(pc := s.pc + Len([Xcall(lib, fn, |ops|)]),
                                 stack := below + [Operand(r.value, None, s.gl)])
            else Run(h, s, 1).fault == Some(r.fault)
  {
    hide Has, Step, Run, ValuesOf, Len;
    StepOnce(h, s, Xcall(lib, fn, |ops|));
    assert s.stack[|s.stack| - |ops|..] == ops;
    assert Dropped(s.stack, |ops|) == below;
  }

  lemma SimForeign(h: Host, c: Linked, e: Expr, s: State, w: World, fuel: nat, base: seq<Operand>, junk: seq<Operand>,
                   n1: nat, left: seq<Operand>, ops: seq<Operand>)
    returns (n: nat, top: Operand)
    requires e.Foreign? && |e.args| < 256 && s.code == c.code && Has(s.code, s.pc, Compile(h, e))
    requires Gathered(h, c, e.args, s, n1, fuel, EvaluateArgs(h, c.p.fns, e.args, w, s.gl, fuel), base + left, ops)
    requires Calls(e) <= c.p.clean ==> left <= junk
    ensures Evaluated(h, c, e, s, n, fuel, Evaluate(h, c.p.fns, e, w, s.gl, fuel), base, junk, left, top)
  {
    hide Represents, Run, Has, Kept, Len, CompileArgs, EvaluateArgs, Calls;
    var i := Xcall(e.lib, e.fn, |e.args|);
    assert Compile(h, e) == CompileArgs(h, e.args) + [i];
    HasConcat(s.code, s.pc, CompileArgs(h, e.args), [i]);
    hide Compile;
    var o := EvaluateArgs(h, c.p.fns, e.args, w, s.gl, fuel);
    n, top := n1, Operand(Unset, None, s.gl);
    if o.Done? {
      var t := Run(h, s, n1);
      StepForeign(h, t, base + left, ops, e.lib, e.fn);
      n := n1 + 1;
      RunAdd(h, s, n1, 1);
      var r := h.foreign(e.lib, e.fn, o.value);
      if r.Ok? {
        top := Operand(r.value, None, s.gl);
        KeptAbove(t, Run(h, t, 1), s.gl);
        KeptTrans(s, t, Run(h, t, 1), s.gl, s.gl);
      }
    }
  }
}
