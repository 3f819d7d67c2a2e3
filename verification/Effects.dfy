/** Stack discipline: what the code of any accepted expression does to the depth of the stack. */
module Effects {
  import opened Bytes
  import opened Bytecode
  import opened Values
  import opened Tables
  import opened Machine
  import opened Syntax
  import opened Grammar

  /** How many entries an instruction takes and leaves; None for those that do not belong to plain expressions. */
  function Effect(i: Instr): (r: Option<(nat, nat)>) {
    match i
    case Dbl(_) => Some((0, 1))
    case Text(c, _) => if c == AS_STRING then Some((0, 1)) else None
    case Tok(c, _) =>
      if c == AS_VAR then Some((0, 1))
      else if c == ACCESS || c == ADD_ELEM then Some((1, 1))
      else if c == SET_ELEM then Some((2, 1))
      else None
    case Xcall(_, _, n) => Some((n as nat, 1))
    case Rev(_) => None
    case Op(c) =>
      if OpOf(c).Some? || c == SET then Some((2, 1))
      else if c == INVERT || c == UNARY_MINUS || c == INCR || c == DECR then Some((1, 1))
      else if c == AS_VOID || c == MICROTIME then Some((0, 1))
      else None
  }

  /** The depth above the starting point, after each instruction found what it takes above that point. */
  function Depth(ins: seq<Instr>, d: nat): (r: Option<nat>) {
    if ins == [] then Some(d)
    else
      match Effect(ins[0])
      case None => None
      case Some(e) => if d < e.0 then None else Depth(ins[1..], d - e.0 + e.1)
  }

  lemma {:induction false} DepthConcat(a: seq<Instr>, b: seq<Instr>, d: nat)
    ensures Depth(a + b, d) == match Depth(a, d) case None => None case Some(k) => Depth(b, k)
    decreases |a|
  {
    if a == [] {
      assert a + b == b;
    } else {
      assert (a + b)[0] == a[0] && (a + b)[1..] == a[1..] + b;
      if Effect(a[0]).Some? && d >= Effect(a[0]).value.0 {
        DepthConcat(a[1..], b, d - Effect(a[0]).value.0 + Effect(a[0]).value.1);
      }
    }
  }

  lemma DepthThen(a: seq<Instr>, i: Instr, d: nat, k: nat)
    requires Depth(a, d) == Some(k) && Effect(i).Some? && k >= Effect(i).value.0
    ensures Depth(a + [i], d) == Some(k - Effect(i).value.0 + Effect(i).value.1)
  {
    DepthConcat(a, [i], d);
    assert [i][1..] == [];
  }

  /** No print and no block call anywhere in the tree. */
  predicate Calm(e: Expr)
    decreases e, 1
  {
    match e
    case Bin(_, l, r) => Calm(l) && Calm(r)
    case Assign(l, r) => Calm(l) && Calm(r)
    case Not(a) => Calm(a)
    case Minus(a) => Calm(a)
    case Bump(_, a) => Calm(a)
    case Foreign(_, _, args) => CalmAll(args)
    case Access(_, i) => Calm(i)
    case SetElem(_, i, v) => Calm(i) && Calm(v)
    case AddElem(_, v) => Calm(v)
    case Call(_, _) => false
    case Print(_) => false
    case _ => true
  }

  predicate CalmAll(args: seq<Expr>)
    decreases args, 0
  {
    args == [] || (Calm(args[0]) && CalmAll(args[1..]))
  }

  /** Code of a calm tree leaves exactly one entry and never looks below its starting depth. */
  lemma {:induction false} CompileDepth(h: Host, e: Expr, d: nat)
    requires Calm(e) && FewArgs(e)
    ensures Depth(Compile(h, e), d) == Some(d + 1)
    decreases e, 1
  {
    hide Depth, OpOf;
    match e
    case Number(t) => DepthOne(Dbl(h.strtod(t)), d);
    case Quoted(t) => DepthOne(Text(AS_STRING, t), d);
    case Void => OpEffects(Or); DepthOne(Op(AS_VOID), d);
    case Microtime => OpEffects(Or); DepthOne(Op(MICROTIME), d);
    case Ref(x) => DepthOne(Tok(AS_VAR, x), d);
    case Bin(op, l, r) => OpEffects(op); PairDepth(h, e, l, r, Op(OpCode(op)), d);
    case Assign(l, r) => OpEffects(Or); PairDepth(h, e, l, r, Op(SET), d);
    case Not(a) => OpEffects(Or); CompileDepth(h, a, d); DepthThen(Compile(h, a), Op(INVERT), d, d + 1);
    case Minus(a) => OpEffects(Or); CompileDepth(h, a, d); DepthThen(Compile(h, a), Op(UNARY_MINUS), d, d + 1);
    case Bump(up, a) =>
      OpEffects(Or);
      CompileDepth(h, a, d);
      DepthThen(Compile(h, a), Op(if up then INCR else DECR), d, d + 1);
    case Foreign(lib, fn, args) =>
      ArgsDepth(h, args, d);
      DepthThen(CompileArgs(h, args), Xcall(lib, fn, |args| % 256), d, d + |args|);
    case Access(x, i) => CompileDepth(h, i, d); DepthThen(Compile(h, i), Tok(ACCESS, x), d, d + 1);
    case SetElem(x, i, v) => PairDepth(h, e, i, v, Tok(SET_ELEM, x), d);
    case AddElem(x, v) => CompileDepth(h, v, d); DepthThen(Compile(h, v), Tok(ADD_ELEM, x), d, d + 1);
  }

  lemma OpEffects(op: BinOp)
    ensures OpOf(OpCode(op)).Some?
    ensures forall c | c == SET || c == INVERT || c == UNARY_MINUS || c == INCR || c == DECR || c == AS_VOID ||
            c == MICROTIME ::
              OpOf(c).None?
  {
  }

  lemma DepthOne(i: Instr, d: nat)
    requires Effect(i) == Some((0, 1))
    ensures Depth([i], d) == Some(d + 1)
  {
    assert [i][1..] == [];
  }

  lemma {:induction false} PairDepth(h: Host, e: Expr, l: Expr, r: Expr, i: Instr, d: nat)
    requires l < e && r < e && Calm(l) && Calm(r) && FewArgs(l) && FewArgs(r) && Effect(i) == Some((2, 1))
    ensures Depth(Compile(h, l) + Compile(h, r) + [i], d) == Some(d + 1)
    decreases e, 0
  {
    hide Depth, Compile, Effect;
    CompileDepth(h, l, d);
    CompileDepth(h, r, d + 1);
    DepthConcat(Compile(h, l), Compile(h, r), d);
    DepthThen(Compile(h, l) + Compile(h, r), i, d, d + 2);
  }

  lemma {:induction false} ArgsDepth(h: Host, args: seq<Expr>, d: nat)
    requires CalmAll(args) && FewArgsAll(args)
    ensures Depth(CompileArgs(h, args), d) == Some(d + |args|)
    decreases args, 0
  {
    hide Compile;
    if args != [] {
      CompileDepth(h, args[0], d);
      ArgsDepth(h, args[1..], d + 1);
      DepthConcat(Compile(h, args[0]), CompileArgs(h, args[1..]), d);
    }
  }

  // ----- what the machine does -----

  /** Only the position, the stack and the variables differ, and the stack only above base. */
  ghost predicate Straight(s: State, t: State, base: seq<Operand>) {
    t == s.(pc := t.pc, stack := t.stack, vars := t.vars) && base <= t.stack
  }

  ghost predicate Kept(s: State, t: State, base: seq<Operand>, next: nat, pops: nat, pushes: nat) {
    t.fault.Some? || (Straight(s, t, base) && t.pc == next && |t.stack| == |s.stack| - pops + pushes)
  }

  lemma BinaryEffect(h: Host, s: State, op: BinOp, base: seq<Operand>)
    requires base <= s.stack && |s.stack| >= |base| + 2
    ensures Kept(s, Binary(h, s, op), base, s.pc, 2, 1)
  {
    hide Apply;
  }

  lemma BumpEffect(h: Host, s: State, up: bool, base: seq<Operand>)
    requires base <= s.stack && |s.stack| >= |base| + 1
    ensures Kept(s, BumpTop(h, s, up), base, s.pc, 1, 1)
  {
    hide Put, Lookup, Values.Bump;
  }

  lemma AssignEffect(s: State, base: seq<Operand>)
    requires base <= s.stack && |s.stack| >= |base| + 2
    ensures Kept(s, Machine.Assign(s), base, s.pc, 2, 1)
  {
    hide Put, Lookup;
  }

  lemma UnaryEffect(s: State, r: Result<Value>, base: seq<Operand>)
    requires base <= s.stack && |s.stack| >= |base| + 1
    ensures Kept(s, Machine.Unary(s, r), base, s.pc, 1, 1)
  {
  }

  lemma StackOpEffect(h: Host, s: State, c: Byte, base: seq<Operand>)
    requires IsStackOp(c) && Effect(Op(c)).Some? && base <= s.stack && |s.stack| >= |base| + Effect(Op(c)).value.0
    ensures Kept(s, ExecStackOp(h, s, c), base, s.pc, Effect(Op(c)).value.0, Effect(Op(c)).value.1)
  {
    hide BumpTop, Machine.Assign, Machine.Unary, Negate, Invert;
    if c == INCR || c == DECR {
      BumpEffect(h, s, c == INCR, base);
    } else if c == SET {
      AssignEffect(s, base);
    } else if c == INVERT || c == UNARY_MINUS {
      UnaryEffect(s, if c == INVERT then Invert(h, Top(s).v) else Negate(h, Top(s).v), base);
    }
  }

  lemma ExecEffect(h: Host, s: State, i: Instr, next: nat, base: seq<Operand>)
    requires Effect(i).Some? && base <= s.stack && |s.stack| >= |base| + Effect(i).value.0
    ensures Kept(s, Exec(h, s, i, next), base, next, Effect(i).value.0, Effect(i).value.1)
  {
    hide Binary, ExecStackOp, Put, Lookup, LookupPrefix;
    if i.Op? {
      if OpOf(i.code).Some? {
        BinaryEffect(h, s.(pc := next), OpOf(i.code).value, base);
      } else {
        StackOpEffect(h, s.(pc := next), i.code, base);
      }
    }
  }

  /** Up to its last instruction the code runs straight through: after j dispatches j instructions have been
      executed, the stack is as deep as the static count says, and what was below is untouched. */
  lemma {:induction false} RunDepth(h: Host, s: State, ins: seq<Instr>, base: seq<Operand>, j: nat)
    requires s.fault.None? && !s.skip && Has(s.code, s.pc, ins) && base <= s.stack && j <= |ins|
    requires Depth(ins, |s.stack| - |base|).Some?
    ensures var t := Run(h, s, j);
            t.fault.Some? || (Straight(s, t, base) && t.pc == s.pc + Len(ins[..j]) &&
                              Depth(ins[..j], |s.stack| - |base|) == Some(|t.stack| - |base|))
    decreases j
  {
    hide Exec, Effect, Encode, Decode;
    if j > 0 {
      var i, rest := ins[0], ins[1..];
      var next := s.pc + Size(i);
      ExecEffect(h, s, i, next, base);
      var t := Exec(h, s, i, next);
      assert Step(h, s) == t;
      assert ins[..j] == [i] + rest[..j - 1];
      if t.fault.None? {
        RunDepth(h, t, rest, base, j - 1);
      }
    }
  }

  /** Any text the parser accepts, if it neither prints nor calls a block: each of its instructions finds its
      operands above the starting point, and the whole leaves one entry more than there was. */
  lemma AcceptedText(h: Host, text: seq<Byte>, s: State, j: nat)
    requires Parse(text).Some? && Calm(Parse(text).value)
    requires s.fault.None? && !s.skip && Has(s.code, s.pc, Compile(h, Parse(text).value))
    requires j <= |Compile(h, Parse(text).value)|
    ensures var t, n := Run(h, s, j), |Compile(h, Parse(text).value)|;
            t.fault.Some? || (Straight(s, t, s.stack) && (j == n ==> |t.stack| == |s.stack| + 1))
  {
    hide Compile, Run, Calm, Disjunction;
    var e := Parse(text).value;
    CompileDepth(h, e, 0);
    RunDepth(h, s, Compile(h, e), s.stack, j);
    assert j == |Compile(h, e)| ==> Compile(h, e)[..j] == Compile(h, e);
  }
}
