/** Expressions, arguments and parameters: the pieces that a simulation of expressions is put together from. */
module Operands {
  import opened Bytes
  import opened Bytecode
  import opened Values
  import opened Tables
  import opened Machine
  import opened Syntax
  import opened Semantics
  import opened Fragment
  import opened Steps

  // ----- expressions -----

  lemma SimLeaf(h: Host, c: Linked, e: Expr, s: State, w: World, fuel: nat, base: seq<Operand>, junk: seq<Operand>)
    returns (top: Operand)
    requires WfProg(c.p) && Holds(c, s, w, s.gl, false)
    requires Wf(c.p, e) && (e.Number? || e.Quoted? || e.Void? || e.Ref?)
    requires Has(s.code, s.pc, Compile(h, e)) && s.stack == base + junk
    ensures Evaluated(h, c, e, s, 1, fuel, Evaluate(h, c.p.fns, e, w, s.gl, fuel), base, junk, junk, top)
  {
    hide Represents, Step, Decode, Encode;
    var i := Compile(h, e)[0];
    assert Compile(h, e) == [i];
    StepOnce(h, s, i);
    match e
    case Number(t) => top := Operand(Num(h.strtod(t)), None, 0);
    case Quoted(t) => top := Operand(Str(t), None, s.gl);
    case Void => top := Operand(Unset, None, 0);
    case Ref(x) =>
      HoldsRead(c, s, w, s.gl, false, x);
      hide Lookup, LookupPrefix;
      top := Operand(if x in w.vars then w.vars[x] else Unset, Some(x), 0);
  }

  function Operator(e: Expr): (op: Byte)
    requires e.Not? || e.Minus? || e.Bump?
  {
    if e.Not? then INVERT else if e.Minus? then UNARY_MINUS else if e.up then INCR else DECR
  }

  /** What the last step of a unary operator does to its operand. */
  function UnaryItem(h: Host, e: Expr, i: Item, w: World): (o: Outcome<Item>)
    requires e.Not? || e.Minus? || e.Bump?
  {
    if e.Not? then FromResult(Invert(h, i.v), i.from, w)
    else if e.Minus? then FromResult(Negate(h, i.v), i.from, w)
    else BumpItem(h, e.up, i, w)
  }

  function PairItem(h: Host, e: Expr, a: Item, b: Item, w: World): (o: Outcome<Item>)
    requires e.Bin? || e.Assign?
  {
    if e.Bin? then FromResult(Apply(h, e.op, a.v, b.v), if Fresh(e.op) then None else a.from, w)
    else AssignItem(a, b, w)
  }

  function PairOp(e: Expr): (op: Byte)
    requires e.Bin? || e.Assign?
  {
    if e.Bin? then OpCode(e.op) else SET
  }

  /** The state after an operator: one byte further, the operand replaced, the rest as it was. */
  ghost predicate Finished(h: Host, c: Linked, t: State, o: Outcome<Item>, rest: seq<Operand>, top: Operand) {
    match o
    case Fail(f) => Run(h, t, 1).fault == Some(f)
    case Done(i, w) =>
      var u := Run(h, t, 1);
      Holds(c, u, w, t.gl, false) && u.runFlag == t.runFlag && u.retPoint == t.retPoint && u.pc == t.pc + 1 &&
      u.stack == rest + [top] && top.v == i.v && top.from == i.from
    case _ => false
  }

  lemma FinishUnary(h: Host, c: Linked, e: Expr, t: State, w: World, rest: seq<Operand>, a: Operand)
    returns (top: Operand)
    requires e.Not? || e.Minus? || e.Bump?
    requires Holds(c, t, w, t.gl, false) && t.stack == rest + [a]
    requires Has(t.code, t.pc, [Op(Operator(e))])
    ensures Finished(h, c, t, UnaryItem(h, e, Item(a.v, a.from), w), rest, top)
    ensures top.level == a.level
  {
    hide Represents, Run, Put, Lookup, Has, Invert, Negate, Values.Bump;
    top := a;
    if e.Bump? {
      StepBump(h, t, e.up, rest, a);
      if a.from.Some? { HoldsLookup(c, t, w, t.gl, false, a.from.value); }
      var r := Values.Bump(h, e.up, a.v);
      if r.Ok? {
        top := a.(v := r.value);
        if a.from.Some? && a.from.value in w.vars { HoldsPut(c, t, w, t.gl, false, a.from.value, top.v); }
      }
    } else {
      StepUnary(h, t, Operator(e), rest, a);
      var r := if e.Not? then Invert(h, a.v) else Negate(h, a.v);
      if r.Ok? { top := a.(v := r.value); }
    }
  }

  lemma FinishPair(h: Host, c: Linked, e: Expr, t: State, w: World, rest: seq<Operand>, a: Operand, b: Operand)
    returns (top: Operand)
    requires e.Bin? || e.Assign?
    requires Holds(c, t, w, t.gl, false) && t.stack == rest + [a] + [b]
    requires Has(t.code, t.pc, [Op(PairOp(e))])
    ensures Finished(h, c, t, PairItem(h, e, Item(a.v, a.from), Item(b.v, b.from), w), rest, top)
    ensures top.level == if e.Bin? && Fresh(e.op) then 0 else a.level
  {
    hide Represents, Run, Put, Lookup, Has, Apply, OpCode;
    top := if e.Bin? && Fresh(e.op) then a.(level := 0) else a;
    if e.Bin? {
      StepBinary(h, t, e.op, rest, a, b);
      var r := Apply(h, e.op, a.v, b.v);
      if r.Ok? { top := if Fresh(e.op) then Operand(r.value, None, 0) else a.(v := r.value); }
    } else {
      StepAssign(h, t, rest, a, b);
      if a.from.Some? {
        HoldsLookup(c, t, w, t.gl, false, a.from.value);
        if a.from.value in w.vars { HoldsPut(c, t, w, t.gl, false, a.from.value, b.v); }
      }
    }
  }

  lemma EvaluateUnary(h: Host, p: Prog, e: Expr, w: World, d: nat, fuel: nat)
    requires e.Not? || e.Minus? || e.Bump?
    ensures var o := Evaluate(h, p.fns, e.e, w, d, fuel);
            Evaluate(h, p.fns, e, w, d, fuel) == if o.Done? then UnaryItem(h, e, o.value, o.w) else o
    ensures Compile(h, e) == Compile(h, e.e) + [Op(Operator(e))]
    ensures LeftSafe(p, e) == LeftSafe(p, e.e) && ZeroTag(p, e) == ZeroTag(p, e.e) && Calls(e) == Calls(e.e)
  {
  }

  lemma EvaluatePair(h: Host, p: Prog, e: Expr, w: World, d: nat, fuel: nat)
    requires e.Bin? || e.Assign?
    ensures var o := Evaluate(h, p.fns, e.l, w, d, fuel);
            Evaluate(h, p.fns, e, w, d, fuel) ==
            if !o.Done? then o
            else
              var o2 := Evaluate(h, p.fns, e.r, o.w, d, fuel);
              if o2.Done? then PairItem(h, e, o.value, o2.value, o2.w) else o2
    ensures Compile(h, e) == Compile(h, e.l) + Compile(h, e.r) + [Op(PairOp(e))]
    ensures LeftSafe(p, e) == ((e.Bin? && Fresh(e.op)) || LeftSafe(p, e.l))
    ensures ZeroTag(p, e) == ((e.Bin? && Fresh(e.op)) || ZeroTag(p, e.l)) && Calls(e) == Calls(e.l) + Calls(e.r)
  {
    hide Apply, AssignItem, FromResult;
  }

  lemma SimUnary(h: Host, c: Linked, e: Expr, s: State, w: World, fuel: nat, base: seq<Operand>, junk: seq<Operand>,
                 n1: nat, left: seq<Operand>, top1: Operand)
    returns (n: nat, top: Operand)
    requires e.Not? || e.Minus? || e.Bump?
    requires Has(s.code, s.pc, Compile(h, e)) && s.code == c.code
    requires Evaluated(h, c, e.e, s, n1, fuel, Evaluate(h, c.p.fns, e.e, w, s.gl, fuel), base, junk, left, top1)
    ensures Evaluated(h, c, e, s, n, fuel, Evaluate(h, c.p.fns, e, w, s.gl, fuel), base, junk, left, top)
  {
    hide Represents, Run, Has, UnaryItem, Evaluate, Compile;
    EvaluateUnary(h, c.p, e, w, s.gl, fuel);
    var o := Evaluate(h, c.p.fns, e.e, w, s.gl, fuel);
    n, top := n1, top1;
    if o.Done? {
      var t := Run(h, s, n1);
      HasConcat(s.code, s.pc, Compile(h, e.e), [Op(Operator(e))]);
      assert Len([Op(Operator(e))]) == 1;
      top := FinishUnary(h, c, e, t, o.w, base + left, top1);
      n := n1 + 1;
      RunAdd(h, s, n1, 1);
    }
  }

  lemma StoppedLater<T>(h: Host, s: State, n1: nat, n2: nat, fuel: nat, o: Outcome<T>)
    requires Stopped(h, Run(h, s, n1), n2, fuel, o)
    ensures Stopped(h, s, n1 + n2, fuel, o)
  {
    hide Run;
    RunAdd(h, s, n1, n2);
  }

  lemma PairDone(h: Host, c: Linked, e: Expr, s: State, n2: nat, w2: World, rest: seq<Operand>,
                 top1: Operand, top2: Operand)
    returns (top: Operand)
    requires e.Bin? || e.Assign?
    requires s.code == c.code && Has(s.code, s.pc, Compile(h, e))
    requires var t := Run(h, s, n2);
             Holds(c, t, w2, s.gl, false) && Kept(s, t, s.gl) && t.stack == rest + [top1] + [top2] &&
             t.pc == s.pc + Len(Compile(h, e.l)) + Len(Compile(h, e.r))
    ensures var o := PairItem(h, e, Item(top1.v, top1.from), Item(top2.v, top2.from), w2);
            if o.Done? then
              var u := Run(h, s, n2 + 1);
              Holds(c, u, o.w, s.gl, false) && Kept(s, u, s.gl) && u.pc == s.pc + Len(Compile(h, e)) &&
              u.stack == rest + [top] && top.v == o.value.v && top.from == o.value.from
            else o.Fail? && Run(h, s, n2 + 1).fault == Some(o.f)
    ensures top.level == if e.Bin? && Fresh(e.op) then 0 else top1.level
  {
    hide Represents, Run, Has, PairItem, Compile, Calls;
    var t := Run(h, s, n2);
    assert Compile(h, e) == Compile(h, e.l) + Compile(h, e.r) + [Op(PairOp(e))] by {
      EvaluatePair(h, c.p, e, w2, 0, 0);
    }
    HasConcat(s.code, s.pc, Compile(h, e.l) + Compile(h, e.r), [Op(PairOp(e))]);
    HasConcat(s.code, s.pc, Compile(h, e.l), Compile(h, e.r));
    assert Len([Op(PairOp(e))]) == 1;
    top := FinishPair(h, c, e, t, w2, rest, top1, top2);
    RunAdd(h, s, n2, 1);
  }

  lemma SimPair(h: Host, c: Linked, e: Expr, s: State, w: World, fuel: nat, base: seq<Operand>, junk: seq<Operand>,
                n1: nat, left: seq<Operand>, top1: Operand, n2: nat, left2: seq<Operand>, top2: Operand)
    returns (n: nat, top: Operand)
    requires e.Bin? || e.Assign?
    requires Has(s.code, s.pc, Compile(h, e)) && s.code == c.code && Calls(e.r) <= c.p.clean
    requires Evaluated(h, c, e.l, s, n1, fuel, Evaluate(h, c.p.fns, e.l, w, s.gl, fuel), base, junk, left, top1)
    requires var o := Evaluate(h, c.p.fns, e.l, w, s.gl, fuel);
             o.Done? ==> Evaluated(h, c, e.r, Run(h, s, n1), n2, fuel,
                                   Evaluate(h, c.p.fns, e.r, o.w, s.gl, fuel), base + left + [top1], [], left2, top2)
    ensures Evaluated(h, c, e, s, n, fuel, Evaluate(h, c.p.fns, e, w, s.gl, fuel), base, junk, left, top)
  {
    hide Represents, Run, Has, PairItem, Evaluate, Compile, Calls, Len, Kept;
    EvaluatePair(h, c.p, e, w, s.gl, fuel);
    var o := Evaluate(h, c.p.fns, e.l, w, s.gl, fuel);
    n, top := n1, top1;
    if o.Done? {
      n := n1 + n2;
      var o2 := Evaluate(h, c.p.fns, e.r, o.w, s.gl, fuel);
      if o2.Done? {
        RunAdd(h, s, n1, n2);
        KeptTrans(s, Run(h, s, n1), Run(h, s, n1 + n2), s.gl, s.gl);
        assert base + left + [top1] + left2 + [top2] == base + left + [top1] + [top2];
        top := PairDone(h, c, e, s, n1 + n2, o2.w, base + left, top1, top2);
        n := n + 1;
      } else {
        StoppedLater(h, s, n1, n2, fuel, o2);
      }
    }
  }

  // ----- arguments -----

  /** The argument values lie on the stack in order, above whatever was pending. */
  ghost predicate Gathered(h: Host, c: Linked, args: seq<Expr>, s: State, n: nat, fuel: nat, o: Outcome<seq<Value>>,
                           below: seq<Operand>, ops: seq<Operand>)
  {
    if o.Done? then
      var t := Run(h, s, n);
      Holds(c, t, o.w, s.gl, false) && Kept(s, t, s.gl) && t.pc == s.pc + Len(CompileArgs(h, args)) &&
      t.stack == below + ops && ValuesOf(ops) == o.value && |ops| == |args|
    else Stopped(h, s, n, fuel, o)
  }

  lemma GatherNone(h: Host, c: Linked, s: State, w: World, fuel: nat, below: seq<Operand>)
    requires Holds(c, s, w, s.gl, false) && s.stack == below
    ensures Gathered(h, c, [], s, 0, fuel, EvaluateArgs(h, c.p.fns, [], w, s.gl, fuel), below, [])
  {
    hide Represents;
    assert below + [] == below;
  }

  lemma EvaluateArgsMore(h: Host, fns: map<Name, Fn>, args: seq<Expr>, w: World, d: nat, fuel: nat)
    requires args != []
    ensures var o := Evaluate(h, fns, args[0], w, d, fuel);
            EvaluateArgs(h, fns, args, w, d, fuel) ==
            if !o.Done? then o.PropagateFailure()
            else
              var o2 := EvaluateArgs(h, fns, args[1..], o.w, d, fuel);
              if o2.Done? then Done([o.value.v] + o2.value, o2.w) else o2
    ensures CompileArgs(h, args) == Compile(h, args[0]) + CompileArgs(h, args[1..])
  {
    hide Evaluate, Compile;
  }

  lemma GatherMore(h: Host, c: Linked, args: seq<Expr>, s: State, w: World, fuel: nat,
                   base: seq<Operand>, junk: seq<Operand>, n1: nat, left: seq<Operand>, top: Operand,
                   n2: nat, ops2: seq<Operand>)
    returns (n: nat, ops: seq<Operand>)
    requires args != [] && s.code == c.code && Has(s.code, s.pc, CompileArgs(h, args))
    requires Evaluated(h, c, args[0], s, n1, fuel, Evaluate(h, c.p.fns, args[0], w, s.gl, fuel), base, junk, left, top)
    requires var o := Evaluate(h, c.p.fns, args[0], w, s.gl, fuel);
             o.Done? ==> Gathered(h, c, args[1..], Run(h, s, n1), n2, fuel,
                                  EvaluateArgs(h, c.p.fns, args[1..], o.w, s.gl, fuel), base + left + [top], ops2)
    ensures Gathered(h, c, args, s, n, fuel, EvaluateArgs(h, c.p.fns, args, w, s.gl, fuel), base + left, ops)
  {
    hide Represents, Run, Has, Evaluate, EvaluateArgs, Compile, CompileArgs, Calls, Len;
    EvaluateArgsMore(h, c.p.fns, args, w, s.gl, fuel);
    var o := Evaluate(h, c.p.fns, args[0], w, s.gl, fuel);
    n, ops := n1, [];
    if o.Done? {
      n := n1 + n2;
      HasConcat(s.code, s.pc, Compile(h, args[0]), CompileArgs(h, args[1..]));
      var o2 := EvaluateArgs(h, c.p.fns, args[1..], o.w, s.gl, fuel);
      if o2.Done? {
        RunAdd(h, s, n1, n2);
        ops := [top] + ops2;
        assert ops[1..] == ops2;
        assert base + left + [top] + ops2 == base + left + ops;
      } else {
        StoppedLater(h, s, n1, n2, fuel, o2);
      }
    }
  }

  // ----- entering a block -----

  lemma StepRev(h: Host, s: State, below: seq<Operand>, ops: seq<Operand>)
    requires s.fault.None? && !s.skip && s.stack == below + ops && |ops| < 256
    requires Has(s.code, s.pc, [Rev(|ops|)])
    ensures !Halted(s)
    ensures Run(h, s, 1) == s.(pc := s.pc + Len([Rev(|ops|)]), stack := below + Reversed(ops),
                               paramCount := |ops|)
  {
    hide Has, Step, Run, ExecOp, ExecTok, CallForeign, Reversed;
    StepOnce(h, s, Rev(|ops|));
    assert s.stack[|s.stack| - |ops|..] == ops;
    assert Dropped(s.stack, |ops|) == below;
  }

  lemma StepIdle(h: Host, s: State)
    requires s.fault.None? && !s.skip && Has(s.code, s.pc, [Op(IDLE)])
    ensures !Halted(s) && Run(h, s, 1) == s.(pc := s.pc + 1) && Len([Op(IDLE)]) == 1
  {
    hide Has, Step, Run;
    StepOnce(h, s, Op(IDLE));
  }

  function CountCode(n: nat): (i: Instr) {
    if n > 0 then Rev(n % 256) else Op(IDLE)
  }

  lemma StepCount(h: Host, s: State, below: seq<Operand>, ops: seq<Operand>)
    requires s.fault.None? && !s.skip && s.stack == below + ops && |ops| < 256
    requires Has(s.code, s.pc, [CountCode(|ops|)])
    ensures !Halted(s) && Len([CountCode(|ops|)]) >= 1
    ensures Run(h, s, 1) == s.(pc := s.pc + Len([CountCode(|ops|)]), stack := below + Reversed(ops),
                               paramCount := if |ops| > 0 then |ops| else s.paramCount)
  {
    hide Has, Run;
    if |ops| > 0 {
      StepRev(h, s, below, ops);
    } else {
      StepIdle(h, s);
      assert below + Reversed(ops) == s.stack;
    }
  }

  lemma StepCall(h: Host, s: State, f: Name)
    requires s.fault.None? && !s.skip && Has(s.code, s.pc, [Tok(CALL, f)])
    ensures !Halted(s)
    ensures if f in s.blocks then
              Run(h, s, 1) == s.(thisBlock := Some(s.blocks[f]), gl := Inc(s.gl),
                                 retPoint := s.retPoint[Inc(s.gl) := s.pc + Len([Tok(CALL, f)])],
                                 runFlag := s.runFlag[Inc(s.gl) := RUN_BLOCK], pc := s.blocks[f].pos)
            else Run(h, s, 1).fault == Some(RuntimeError)
  {
    hide Step, Run, Has;
    StepOnce(h, s, Tok(CALL, f));
  }

  lemma StepParam(h: Host, s: State, x: Name, rest: seq<Operand>, a: Operand)
    requires s.fault.None? && !s.skip && Has(s.code, s.pc, [Tok(PARAM, x)])
    requires s.stack == rest + [a] && s.paramCount != 0
    ensures !Halted(s)
    ensures Run(h, s, 1) == s.(pc := s.pc + Len([Tok(PARAM, x)]), stack := rest, paramCount := s.paramCount - 1,
                               vars := Put(Tables.Declare(s.vars, x, Null), x, a.v))
  {
    hide Step, Run, Has;
    StepOnce(h, s, Tok(PARAM, x));
    hide Put, Tables.Declare;
    assert Dropped(s.stack, 1) == rest;
  }

  /** The i-th parameter takes the i-th argument. */
  lemma {:induction false} SimParams(h: Host, c: Linked, s: State, w: World, params: seq<Name>,
                                     below: seq<Operand>, ops: seq<Operand>)
    requires Holds(c, s, w, s.gl, false) && WfParams(c.p, params)
    requires |params| == |ops| && s.stack == below + Reversed(ops)
    requires ops != [] ==> s.paramCount == |ops|
    requires Has(s.code, s.pc, ParamCode(params))
    ensures var t := Run(h, s, |params|);
            Holds(c, t, w.(vars := Bind(params, ValuesOf(ops), w.vars)), s.gl, false) &&
            t.runFlag == s.runFlag && t.retPoint == s.retPoint && t.stack == below &&
            t.pc == s.pc + Len(ParamCode(params))
    decreases |params|
  {
    hide Represents, Step, Has, Put, Tables.Declare;
    if params == [] {
      assert below + Reversed(ops) == below;
    } else {
      var x, a, rest := params[0], ops[0], below + Reversed(ops[1..]);
      assert s.stack == rest + [a];
      assert x in params && WfName(c.p, x);
      HasConcat(s.code, s.pc, [Tok(PARAM, x)], ParamCode(params[1..]));
      StepParam(h, s, x, rest, a);
      var t := Run(h, s, 1);
      HoldsDefine(c, s, w, s.gl, false, x, a.v);
      var w1 := w.(vars := w.vars[x := a.v]);
      SimParams(h, c, t, w1, params[1..], below, ops[1..]);
      RunAdd(h, s, 1, |params| - 1);
    }
  }
}
