/** How machine states relate to worlds, and what each single instruction does to that relation. */
module Steps {
  import opened Bytes
  import opened Bytecode
  import opened Values
  import opened Tables
  import opened Machine
  import opened Syntax
  import opened Semantics
  import opened Fragment

  /** A program, the buffer it was emitted into, and where its blocks are recorded. */
  datatype Linked = Linked(p: Prog, code: seq<Byte>, blocks: map<Name, Block>)

  /** A recorded block is the code of its function, not the definition in front of it. */
  ghost predicate FnLinked(h: Host, c: Linked, f: Name)
    requires f in c.p.fns
  {
    f in c.blocks && Has(c.code, c.blocks[f].pos, FnCode(h, c.p.fns[f]))
  }

  ghost predicate LinkedOk(h: Host, c: Linked) {
    WfProg(c.p) && c.p.fns.Keys == c.blocks.Keys && forall f :: f in c.p.fns ==> FnLinked(h, c, f)
  }

  /** The machine holds the world w and is at level d, executing or skipping. */
  ghost predicate Holds(c: Linked, s: State, w: World, d: nat, skipping: bool) {
    s.fault.None? && s.code == c.code && s.blocks == c.blocks &&
    s.skip == skipping && s.level == 0 && !s.defMode && s.gl == d && s.out == w.out &&
    |s.vars.buckets| == 1000 && Represents(s.vars, w.vars) && w.vars.Keys <= c.p.names
  }

  /** Levels up to d are as they were. */
  ghost predicate Kept(s: State, t: State, d: nat) {
    forall i {:trigger s.runFlag[i]} {:trigger t.runFlag[i]} {:trigger s.retPoint[i]} {:trigger t.retPoint[i]} ::
      0 <= i <= d && i < 256 ==> t.runFlag[i] == s.runFlag[i] && t.retPoint[i] == s.retPoint[i]
  }

  lemma KeptTrans(s: State, t: State, u: State, d: nat, e: nat)
    requires Kept(s, t, d) && Kept(t, u, e) && d <= e
    ensures Kept(s, u, d)
  {
  }

  lemma FlagKept(s: State, t: State, d: Byte)
    requires Kept(s, t, d)
    ensures t.runFlag[d] == s.runFlag[d] && t.retPoint[d] == s.retPoint[d]
  {
  }

  lemma KeptAbove(s: State, t: State, d: nat)
    requires forall i | 0 <= i < 256 && i != d + 1 :: t.runFlag[i] == s.runFlag[i] && t.retPoint[i] == s.retPoint[i]
    ensures Kept(s, t, d)
  {
  }

  /** stack_clear at level k does not reach into this part of the stack. */
  ghost predicate Shielded(base: seq<Operand>, k: nat) {
    base != [] ==> base[|base| - 1].level < k
  }

  /** How a run that does not come to its end goes on. */
  ghost predicate Stopped<T>(h: Host, s: State, n: nat, fuel: nat, o: Outcome<T>) {
    match o
    case Done(_, _) => false
    case Fail(f) => Run(h, s, n).fault == Some(f)
    case Spent => n >= fuel && !Halted(Run(h, s, n))
    case Unspecified => true
  }

  ghost predicate Evaluated(h: Host, c: Linked, e: Expr, s: State, n: nat, fuel: nat, o: Outcome<Item>,
                            base: seq<Operand>, junk: seq<Operand>, left: seq<Operand>, top: Operand)
  {
    if o.Done? then
      var t := Run(h, s, n);
      Holds(c, t, o.w, s.gl, false) && Kept(s, t, s.gl) && t.pc == s.pc + Len(Compile(h, e)) &&
      t.stack == base + left + [top] && top.v == o.value.v && top.from == o.value.from &&
      TagFits(c.p, e, s.gl, top.level) &&
      (e.Call? ==> Shielded(base + left, s.gl as int + 1)) &&
      (Calls(e) <= c.p.clean ==> left <= junk)
    else Stopped(h, s, n, fuel, o)
  }

  // ----- one instruction -----

  lemma StepOnce(h: Host, s: State, i: Instr)
    requires s.fault.None? && !s.skip && Has(s.code, s.pc, [i])
    ensures !Halted(s) && Run(h, s, 1) == Exec(h, s, i, s.pc + Size(i)) && Len([i]) == Size(i)
  {
    hide Exec, SkipOver, Has, Len, Decode, Encode;
    HasOne(s.code, s.pc, i);
    assert Run(h, s, 1) == Run(h, Step(h, s), 0);
  }

  lemma OpCodes(op: BinOp)
    ensures OpOf(OpCode(op)) == Some(op)
  {
  }

  lemma StepBinary(h: Host, s: State, op: BinOp, rest: seq<Operand>, a: Operand, b: Operand)
    requires s.fault.None? && !s.skip && Has(s.code, s.pc, [Op(OpCode(op))]) && s.stack == rest + [a] + [b]
    ensures !Halted(s)
    ensures match Apply(h, op, a.v, b.v)
            case Err(f) => Run(h, s, 1).fault == Some(f)
            case Ok(v) => Run(h, s, 1) == s.(pc := s.pc + 1,
                            stack := rest + [if Fresh(op) then Operand(v, None, 0) else a.(v := v)])
  {
    hide Step, Run, Has;
    StepOnce(h, s, Op(OpCode(op)));
    OpCodes(op);
    hide Apply;
    assert Dropped(s.stack, 2) == rest;
  }

  lemma StepAssign(h: Host, s: State, rest: seq<Operand>, a: Operand, b: Operand)
    requires s.fault.None? && !s.skip && Has(s.code, s.pc, [Op(SET)]) && s.stack == rest + [a] + [b]
    ensures !Halted(s)
    ensures if a.from.Some? && Lookup(s.vars, a.from.value).Some? then
              Run(h, s, 1) == s.(pc := s.pc + 1, stack := rest + [a], vars := Put(s.vars, a.from.value, b.v))
            else Run(h, s, 1).fault == Some(if a.from.Some? then Undefined else RuntimeError)
  {
    hide Step, Run, Has;
    StepOnce(h, s, Op(SET));
    hide Put, Lookup;
    assert Dropped(s.stack, 1) == rest + [a];
  }

  lemma StepUnary(h: Host, s: State, op: Byte, rest: seq<Operand>, a: Operand)
    requires op == INVERT || op == UNARY_MINUS
    requires s.fault.None? && !s.skip && Has(s.code, s.pc, [Op(op)]) && s.stack == rest + [a]
    ensures !Halted(s)
    ensures match (if op == INVERT then Invert(h, a.v) else Negate(h, a.v))
            case Err(f) => Run(h, s, 1).fault == Some(f)
            case Ok(v) => Run(h, s, 1) == s.(pc := s.pc + 1, stack := rest + [a.(v := v)])
  {
    hide Step, Run, Has;
    StepOnce(h, s, Op(op));
    hide Invert, Negate;
    assert Dropped(s.stack, 1) == rest;
  }

  lemma StepBump(h: Host, s: State, up: bool, rest: seq<Operand>, a: Operand)
    requires s.fault.None? && !s.skip && Has(s.code, s.pc, [Op(if up then INCR else DECR)]) && s.stack == rest + [a]
    ensures !Halted(s)
    ensures match Values.Bump(h, up, a.v)
            case Err(f) => Run(h, s, 1).fault == Some(f)
            case Ok(v) =>
              var t := s.(pc := s.pc + 1, stack := rest + [a.(v := v)]);
              match a.from
              case None => Run(h, s, 1) == t
              case Some(x) =>
                if Lookup(s.vars, x).Some? && Lookup(s.vars, x).value.Num? then
                  Run(h, s, 1) == t.(vars := Put(s.vars, x, v))
                else Run(h, s, 1).fault == Some(Undefined)
  {
    hide Step, Run, Has;
    StepOnce(h, s, Op(if up then INCR else DECR));
    hide Values.Bump, Put, Lookup;
    assert Dropped(s.stack, 1) == rest;
  }

  // ----- variables -----

  lemma HoldsRead(c: Linked, s: State, w: World, d: nat, k: bool, x: Name)
    requires Holds(c, s, w, d, k) && WfProg(c.p) && x in c.p.names
    ensures LookupPrefix(s.vars, x) == if x in w.vars then Some(x) else None
    ensures Lookup(s.vars, x) == if x in w.vars then Some(w.vars[x]) else None
  {
    LookupPrefixExact(s.vars, w.vars, c.p.names, x);
  }

  lemma HoldsLookup(c: Linked, s: State, w: World, d: nat, k: bool, x: Name)
    requires Holds(c, s, w, d, k)
    ensures Lookup(s.vars, x) == if x in w.vars then Some(w.vars[x]) else None
  {
  }

  lemma HoldsPut(c: Linked, s: State, w: World, d: nat, k: bool, x: Name, v: Value)
    requires Holds(c, s, w, d, k) && x in w.vars
    ensures Holds(c, s.(vars := Put(s.vars, x, v)), w.(vars := w.vars[x := v]), d, k)
  {
    PutRepresents(s.vars, w.vars, x, v);
    hide Represents, Put;
  }

  lemma HoldsDeclare(c: Linked, s: State, w: World, d: nat, k: bool, x: Name)
    requires Holds(c, s, w, d, k) && x in c.p.names
    ensures Holds(c, s.(vars := Tables.Declare(s.vars, x, Null)),
                  if x in w.vars then w else w.(vars := w.vars[x := Null]), d, k)
  {
    DeclareRepresents(s.vars, w.vars, x, Null);
    hide Represents, Tables.Declare;
  }

  lemma HoldsDefine(c: Linked, s: State, w: World, d: nat, k: bool, x: Name, v: Value)
    requires Holds(c, s, w, d, k) && x in c.p.names
    ensures Holds(c, s.(vars := Put(Tables.Declare(s.vars, x, Null), x, v)), w.(vars := w.vars[x := v]), d, k)
  {
    HoldsDeclare(c, s, w, d, k, x);
    var s1 := s.(vars := Tables.Declare(s.vars, x, Null));
    var w1 := if x in w.vars then w else w.(vars := w.vars[x := Null]);
    HoldsPut(c, s1, w1, d, k, x, v);
    assert w1.vars[x := v] == w.vars[x := v];
  }
}
