/** core/larva_silk.c in its own form: one object whose dispatch loop changes it in place. */
module Silk {
  import opened Bytes
  import opened Bytecode
  import opened Values
  import opened Reversal
  import opened Tables
  import opened Machine

  lemma SameUntil(a: seq<Byte>, b: seq<Byte>)
    requires |a| == |b| && forall k :: 0 <= k < |a| ==> a[k] == b[k]
    ensures a == b
  {
  }

  // ----- one dispatch, from the byte behind the opcode on -----

  function AfterToken(s: State, op: Byte): (r: State) {
    match TokenAt(s.code, s.pc)
    case None => Halt(s, Undefined)
    case Some(t) =>
      var next := s.pc + 1 + |t|;
      if s.skip then SkipOver(s, Tok(op, t), next) else ExecTok(s.(pc := next), op, t)
  }

  function AfterText(s: State, op: Byte): (r: State) {
    if s.pc + 2 > |s.code| then Halt(s, Undefined)
    else
      var n := s.code[s.pc] as int + 256 * (s.code[s.pc + 1] as int);
      var next := s.pc + 2 + n;
      if next > |s.code| then Halt(s, Undefined)
      else if s.skip then s.(pc := next)
      else if op == AS_STRING then Push(s.(pc := next), Operand(Str(s.code[s.pc + 2..next]), None, s.gl))
      else Halt(s, Unmodelled)
  }

  function AfterDouble(s: State): (r: State) {
    if s.pc + 8 > |s.code| then Halt(s, Undefined)
    else if s.skip then s.(pc := s.pc + 8)
    else Push(s.(pc := s.pc + 8), Operand(Num(s.code[s.pc..s.pc + 8]), None, 0))
  }

  function AfterCount(s: State): (r: State) {
    if s.pc >= |s.code| then Halt(s, Undefined)
    else if s.skip then s.(pc := s.pc + 1)
    else ReverseTop(s.(pc := s.pc + 1), s.code[s.pc])
  }

  function AfterXcall(h: Host, s: State): (r: State) {
    match TokenAt(s.code, s.pc)
    case None => Halt(s, Undefined)
    case Some(l) =>
      match TokenAt(s.code, s.pc + 1 + |l|)
      case None => Halt(s, Undefined)
      case Some(f) =>
        var a := s.pc + 2 + |l| + |f|;
        if a >= |s.code| then Halt(s, Undefined)
        else if s.skip then s.(pc := a + 1)
        else CallForeign(h, s.(pc := a + 1), l, f, s.code[a])
  }

  function AfterBlockEnd(h: Host, s: State): (r: State) {
    if s.skip then
      var t := LeaveDefinition(s);
      if t.fault.Some? then t else t.(level := Dec(t.level), skip := Dec(t.level) != 0)
    else EndBlock(h, s)
  }

  function AfterPlain(h: Host, s: State, op: Byte): (r: State) {
    if op == BLOCK_END then AfterBlockEnd(h, s)
    else if s.skip then (if op == BLOCK_START then s.(level := Inc(s.level)) else s)
    else ExecOp(h, s, op)
  }

  function AfterOpcode(h: Host, s: State, op: Byte): (r: State) {
    if TakesToken(op) then AfterToken(s, op)
    else if TakesText(op) then AfterText(s, op)
    else if op == AS_DOUBLE then AfterDouble(s)
    else if op == REVERSE_STACK then AfterCount(s)
    else if op == XCALL then AfterXcall(h, s)
    else AfterPlain(h, s, op)
  }

  /** The same state, or the same fault. */
  predicate Alike(a: State, b: State) {
    a == b || (a.fault.Some? && a.fault == b.fault)
  }

  lemma PlainSplits(h: Host, s: State)
    requires !Halted(s) && !(s.skip && s.code[s.pc] >= 32) && Plain(s.code[s.pc])
    ensures Machine.Step(h, s) == AfterPlain(h, s.(pc := s.pc + 1), s.code[s.pc])
  {
    hide Binary, ExecStackOp, EndBlock;
    if s.code[s.pc] == BLOCK_END {
      assert ExecOp(h, s.(pc := s.pc + 1), BLOCK_END) == EndBlock(h, s.(pc := s.pc + 1));
    }
    hide ExecOp;
  }

  lemma TokenSplits(h: Host, s: State)
    requires !Halted(s) && !(s.skip && s.code[s.pc] >= 32) && TakesToken(s.code[s.pc])
    ensures Alike(Machine.Step(h, s), AfterToken(s.(pc := s.pc + 1), s.code[s.pc]))
  {
    hide ExecTok, TokenAt;
  }

  lemma XcallSplits(h: Host, s: State)
    requires !Halted(s) && !(s.skip && s.code[s.pc] >= 32) && s.code[s.pc] == XCALL
    ensures Alike(Machine.Step(h, s), AfterXcall(h, s.(pc := s.pc + 1)))
  {
    hide CallForeign, TokenAt;
  }

  lemma OperandSplits(h: Host, s: State)
    requires !Halted(s) && !(s.skip && s.code[s.pc] >= 32)
    ensures var op, t := s.code[s.pc], s.(pc := s.pc + 1);
            (TakesText(op) ==> Alike(Machine.Step(h, s), AfterText(t, op))) &&
            (op == AS_DOUBLE ==> Alike(Machine.Step(h, s), AfterDouble(t))) &&
            (op == REVERSE_STACK ==> Alike(Machine.Step(h, s), AfterCount(t)))
  {
    hide ExecTok, ExecOp, CallForeign, ReverseTop, TokenAt;
  }

  /** Reading an opcode first and its operands later is the same as decoding the whole instruction. */
  lemma DispatchSplits(h: Host, s: State)
    requires !Halted(s) && !(s.skip && s.code[s.pc] >= 32)
    ensures Alike(Machine.Step(h, s), AfterOpcode(h, s.(pc := s.pc + 1), s.code[s.pc]))
  {
    hide Machine.Step, AfterToken, AfterText, AfterDouble, AfterCount, AfterXcall, AfterPlain;
    var op := s.code[s.pc];
    if TakesToken(op) {
      TokenSplits(h, s);
    } else if op == XCALL {
      XcallSplits(h, s);
    } else if Plain(op) {
      PlainSplits(h, s);
    } else {
      OperandSplits(h, s);
    }
  }

  class Vm {
    const host: Host
    const bytecode: array<Byte>
    const runFlag: array<Byte>
    const retPoint: array<nat>
    var pc: nat
    var stack: seq<Operand>
    var vars: Vars
    var blocks: map<Name, Block>
    var out: seq<Value>
    var gl: Byte
    var skip: bool
    var level: Byte
    var defMode: bool
    var thisBlock: Option<Block>
    var parentBlock: Option<Block>
    var paramCount: int
    var fault: Option<Fault>
    var size: nat

    /** bc_ready, and the initial values of the locals. */
    constructor (host: Host, emitted: seq<Byte>)
      ensures Valid() && fresh(bytecode) && fresh(runFlag) && fresh(retPoint)
      ensures Abs() == Start(emitted) && this.host == host
    {
      var code := new Byte[|emitted| + 1](i requires 0 <= i <= |emitted| => if i < |emitted| then emitted[i] else IDLE);
      var flags := new Byte[256](_ => 0);
      var points := new nat[256](_ => 0);
      this.host := host;
      bytecode := code;
      runFlag := flags;
      retPoint := points;
      pc, stack, vars, blocks, out, gl := 0, [], Tables.Empty(1000), map[], [], 0;
      skip, level, defMode, thisBlock, parentBlock, paramCount, fault := false, 0, false, None, None, 0, None;
      size := 0;
      new;
      assert bytecode[..] == emitted + [IDLE];
      assert runFlag[..] == seq(256, i => 0);
      assert retPoint[..] == seq(256, i => 0);
    }

    ghost predicate Valid()
      reads this
    {
      runFlag.Length == 256 && retPoint.Length == 256 && runFlag != bytecode && size < 65536
    }

    ghost function Abs(): (s: State)
      requires Valid()
      reads this, bytecode, runFlag, retPoint
    {
      State(bytecode[..], pc, stack, vars, blocks, out, gl, runFlag[..], retPoint[..], skip, level, defMode,
            thisBlock, parentBlock, paramCount, fault)
    }

    /** The object now holds the given state; behind a fault nothing is promised. */
    ghost predicate Became(t: State)
      requires Valid()
      reads this, bytecode, runFlag, retPoint
    {
      if t.fault.Some? then fault == t.fault else Abs() == t
    }

    method Fail(f: Fault)
      modifies this`fault
      ensures fault == Some(f)
    {
      fault := Some(f);
    }

    // ----- core/stack.c -----

    /** stack_pop */
    method Pop() returns (o: Operand)
      requires stack != []
      modifies this`stack
      ensures o == old(stack)[|old(stack)| - 1] && stack == Dropped(old(stack), 1)
    {
      o := stack[|stack| - 1];
      stack := stack[..|stack| - 1];
    }

    /** stack_push tags with the current level, a direct push with 0. */
    method PushTagged(v: Value)
      modifies this`stack
      ensures stack == old(stack) + [Operand(v, None, gl)]
    {
      stack := stack + [Operand(v, None, gl)];
    }

    method PushDirect(v: Value, from: Option<Name>)
      modifies this`stack
      ensures stack == old(stack) + [Operand(v, from, 0)]
    {
      stack := stack + [Operand(v, from, 0)];
    }

    /** stack_clear */
    method Clear()
      modifies this`stack
      ensures stack == Cleared(old(stack), gl)
    {
      while stack != [] && stack[|stack| - 1].level >= gl
        invariant Cleared(stack, gl) == Cleared(old(stack), gl)
        decreases |stack|
      {
        stack := stack[..|stack| - 1];
      }
    }

    // ----- operands of instructions -----

    /** A length byte and that many bytes. In skip mode the bytes are only passed over. */
    method ReadToken() returns (ok: bool, token: Name)
      requires Valid()
      modifies this`pc, this`size, this`fault
      ensures Valid()
      ensures match TokenAt(bytecode[..], old(pc))
              case None => !ok && fault == Some(Undefined)
              case Some(t) => ok && token == t && size == |t| && pc == old(pc) + 1 + |t| && fault == old(fault)
    {
      token := [];
      if pc >= bytecode.Length {
        Fail(Undefined);
        return false, token;
      }
      size := bytecode[pc];
      pc := pc + 1;
      if pc + size > bytecode.Length {
        Fail(Undefined);
        return false, token;
      }
      token := bytecode[pc..pc + size];
      assert token == bytecode[..][pc..pc + size];
      pc := pc + size;
      return true, token;
    }

    // ----- variables -----

    method OnAsVar(token: Name)
      requires Valid() && fault.None?
      modifies this
      ensures Valid() && Became(ReadVar(old(Abs()), token))
    {
      hide Lookup, LookupPrefix;
      var x := LookupPrefix(vars, token);
      if x.None? {
        Fail(RuntimeError);
        return;
      }
      var v := Lookup(vars, x.value);
      if v.None? {
        Fail(Undefined);
        return;
      }
      PushDirect(v.value, x);
    }

    /** var_add, and var_sync through the new or old entry. */
    method Bind(x: Name, v: Value)
      modifies this`vars
      ensures vars == Put(Declare(old(vars), x, Null), x, v)
    {
      vars := Declare(vars, x, Null);
      vars := Put(vars, x, v);
    }

    method OnVarx(token: Name)
      requires Valid() && fault.None?
      modifies this
      ensures Valid() && Became(DefineVar(old(Abs()), token))
    {
      hide Put, Declare;
      if stack == [] {
        Fail(RuntimeError);
        return;
      }
      var v1 := Pop();
      Bind(token, v1.v);
    }

    method OnParam(token: Name)
      requires Valid() && fault.None?
      modifies this
      ensures Valid() && Became(TakeParam(old(Abs()), token))
    {
      hide Put, Declare;
      var left := paramCount;
      paramCount := paramCount - 1;
      if left == 0 {
        Fail(RuntimeError);
        return;
      }
      if stack == [] {
        Fail(Undefined);
        return;
      }
      var v1 := Pop();
      Bind(token, v1.v);
    }

    method OnParamx(token: Name)
      requires Valid() && fault.None?
      modifies this
      ensures Valid() && Became(TakeParamOr(old(Abs()), token))
    {
      hide Put, Declare;
      paramCount := paramCount - 1;
      if stack == [] {
        Fail(RuntimeError);
        return;
      }
      var v1 := Pop();
      var v2 := Unset;
      if |stack| > 0 {
        var o := Pop();
        v2 := o.v;
      }
      assert stack == Dropped(old(stack), if |old(stack)| >= 2 then 2 else 1);
      if v2 == Unset || paramCount < 0 {
        Bind(token, v1.v);
      } else {
        Bind(token, v2);
      }
    }

    // ----- blocks -----

    method OnCall(token: Name)
      requires Valid() && fault.None?
      modifies this, runFlag, retPoint
      ensures Valid() && Became(EnterBlock(old(Abs()), token))
    {
      if token !in blocks {
        Fail(RuntimeError);
        return;
      }
      var block := blocks[token];
      thisBlock := Some(block);
      gl := Inc(gl);
      retPoint[gl] := pc;
      runFlag[gl] := RUN_BLOCK;
      pc := block.pos;
    }

    /** memset over the opcode, the length byte and the token, with SKIP in the last byte. */
    method PatchDefinition()
      requires size + 2 <= pc <= bytecode.Length
      modifies bytecode
      ensures bytecode[..] == Patched(old(bytecode[..]), pc - size - 2, size)
    {
      var k := pc - size - 2;
      ghost var start := k;
      while k < pc - 1
        modifies bytecode
        invariant start <= k <= pc - 1
        invariant forall i :: 0 <= i < bytecode.Length ==>
                  bytecode[i] == if start <= i < k then IDLE else old(bytecode[i])
      {
        bytecode[k] := IDLE;
        k := k + 1;
      }
      bytecode[pc - 1] := SKIP;
      SameUntil(bytecode[..], Patched(old(bytecode[..]), start, size));
    }

    /** block_add keeps an older definition and then returns no block. The definition patches itself away. */
    method OnBlockDef(token: Name)
      requires Valid() && fault.None? && size == |token|
      modifies this, bytecode
      ensures Valid() && Became(DefineBlock(old(Abs()), token))
    {
      hide Patched;
      if pc < size + 2 || pc > bytecode.Length {
        Fail(Undefined);
        return;
      }
      var name := token;
      if thisBlock.Some? {
        name := thisBlock.value.name + [DOT] + token;
      }
      if name in blocks {
        parentBlock := None;
      } else {
        var block := Block(name, pc, thisBlock);
        blocks := blocks[name := block];
        parentBlock := Some(block);
      }
      PatchDefinition();
      skip := true;
      defMode := true;
    }

    /** Every instruction with a token, from the length byte on. */
    method OnToken(op: Byte)
      requires Valid() && fault.None? && TakesToken(op)
      modifies this, bytecode, runFlag, retPoint
      ensures Valid()
      ensures Became(AfterToken(old(Abs()), op))
    {
      hide ReadVar, DefineVar, EnterBlock, TakeParam, TakeParamOr, DefineBlock, Declare, TokenAt;
      ghost var s := Abs();
      var ok, token := ReadToken();
      if !ok {
        return;
      }
      ghost var t := Abs();
      assert t == s.(pc := s.pc + 1 + |token|);
      if op == ADD_ELEM {
        Fail(Unmodelled);
        return;
      }
      if skip {
        return;
      }
      if op == AS_VAR {
        OnAsVar(token);
      } else if op == VAR {
        vars := Declare(vars, token, Null);
      } else if op == VARX {
        OnVarx(token);
      } else if op == CALL {
        OnCall(token);
      } else if op == PARAM {
        OnParam(token);
      } else if op == PARAMX {
        OnParamx(token);
      } else if op == BLOCK_DEF {
        OnBlockDef(token);
      } else {
        Fail(Unmodelled);
      }
    }

    // ----- literals -----

    /** The two length bytes. The JSON case copies them over the low bytes of `size` and leaves the others alone. */
    method ReadLength(op: Byte) returns (ok: bool)
      requires Valid()
      modifies this`pc, this`size, this`fault
      ensures Valid() && ok == (old(pc) + 2 <= bytecode.Length)
      ensures if ok then pc == old(pc) + 2 && fault == old(fault) &&
                         size == bytecode[old(pc)] as int + 256 * (bytecode[old(pc) + 1] as int)
              else fault == Some(Undefined)
    {
      if pc + 2 > bytecode.Length {
        Fail(Undefined);
        return false;
      }
      var n := bytecode[pc] as int + 256 * (bytecode[pc + 1] as int);
      if op == FROM_JSON {
        size := size / 65536 * 65536 + n;
      } else {
        size := n;
      }
      pc := pc + 2;
      return true;
    }

    method OnText(op: Byte)
      requires Valid() && fault.None? && TakesText(op)
      modifies this
      ensures Valid()
      ensures Became(AfterText(old(Abs()), op))
    {
      var ok := ReadLength(op);
      if !ok {
        return;
      }
      if pc + size > bytecode.Length {
        Fail(Undefined);
        return;
      }
      if skip {
        pc := pc + size;
        return;
      }
      if op == FROM_JSON {
        Fail(Unmodelled);
        return;
      }
      PushText();
    }

    method PushText()
      requires Valid() && pc + size <= bytecode.Length
      modifies this`stack, this`pc
      ensures Abs() == Push(old(Abs()).(pc := old(pc) + size),
                            Operand(Str(bytecode[..][old(pc)..old(pc) + size]), None, gl))
    {
      var text := bytecode[pc..pc + size];
      assert text == bytecode[..][pc..pc + size];
      PushTagged(Str(text));
      pc := pc + size;
    }

    method OnDouble()
      requires Valid() && fault.None?
      modifies this
      ensures Valid()
      ensures Became(AfterDouble(old(Abs())))
    {
      if pc + 8 > bytecode.Length {
        Fail(Undefined);
        return;
      }
      if !skip {
        var d := bytecode[pc..pc + 8];
        assert d == bytecode[..][pc..pc + 8];
        PushDirect(Num(d), None);
      }
      pc := pc + 8;
    }

    // ----- calls -----

    /** op_swap on two stack entries */
    method SwapTwo(i: nat, j: nat)
      requires i < |stack| && j < |stack|
      modifies this`stack
      ensures |stack| == |old(stack)| && stack[i] == old(stack)[j] && stack[j] == old(stack)[i]
      ensures forall p :: 0 <= p < |stack| && p != i && p != j ==> stack[p] == old(stack)[p]
    {
      stack := stack[i := stack[j]][j := stack[i]];
    }

    /** Swaps pairs from the middle outwards: iter runs down to zero. */
    method SwapEntries(n: nat)
      requires n <= |stack|
      modifies this`stack
      ensures |stack| == |old(stack)|
      ensures forall p :: 0 <= p < |stack| - n ==> stack[p] == old(stack)[p]
      ensures forall p :: |stack| - n <= p < |stack| ==> stack[p] == old(stack)[2 * |stack| - n - 1 - p]
    {
      var iter := n / 2;
      ghost var was, len := stack, |stack|;
      while iter > 0
        invariant 0 <= iter <= n / 2 && |stack| == len
        invariant forall p :: 0 <= p < len && !(len - n + iter <= p < len - iter) ==> stack[p] == was[p]
        invariant forall p :: len - n + iter <= p < len - iter ==> stack[p] == was[2 * len - n - 1 - p]
      {
        iter := iter - 1;
        SwapTwo(|stack| - 1 - iter, |stack| - n + iter);
      }
    }

    method ReverseEntries(n: nat)
      requires n <= |stack|
      modifies this`stack
      ensures stack == Dropped(old(stack), n) + Reversed(old(stack)[|old(stack)| - n..])
    {
      ghost var was, b := stack, |stack| - n;
      SwapEntries(n);
      forall p | b <= p < |stack| ensures stack[p] == Reversed(was[b..])[p - b] {
        ReversedAt(was[b..], p - b);
      }
    }

    method OnReverse()
      requires Valid() && fault.None?
      modifies this
      ensures Valid()
      ensures Became(AfterCount(old(Abs())))
    {
      hide Reversed, Dropped;
      if pc >= bytecode.Length {
        Fail(Undefined);
        return;
      }
      if skip {
        pc := pc + 1;
        return;
      }
      size := bytecode[pc];
      pc := pc + 1;
      if |stack| < size {
        Fail(Undefined);
        return;
      }
      ReverseEntries(size);
      paramCount := size;
    }

    method DropEntries(argc: Byte)
      requires argc as int <= |stack|
      modifies this`stack
      ensures stack == Dropped(old(stack), argc)
    {
      ghost var was := stack;
      var left: int := argc;
      while left > 0
        invariant 0 <= left <= argc as int && stack == was[..|was| - argc as int + left]
      {
        left := left - 1;
        stack := stack[..|stack| - 1];
      }
    }

    /** The arguments stay on the stack during the foreign call and are dropped one by one behind it. */
    method CallCocoon(lib: Name, fn: Name, argc: Byte)
      requires Valid() && fault.None?
      modifies this`stack, this`fault
      ensures Became(CallForeign(host, old(Abs()), lib, fn, argc))
    {
      hide ValuesOf, Dropped;
      if |stack| < argc {
        Fail(Undefined);
        return;
      }
      var r := host.foreign(lib, fn, ValuesOf(stack[|stack| - argc as int..]));
      DropEntries(argc);
      if r.Err? {
        Fail(r.fault);
        return;
      }
      PushTagged(r.value);
    }

    method OnXcall()
      requires Valid() && fault.None?
      modifies this
      ensures Valid()
      ensures Became(AfterXcall(host, old(Abs())))
    {
      hide TokenAt, CallForeign;
      ghost var s := Abs();
      var ok, token := ReadToken();
      if !ok {
        return;
      }
      ghost var s1 := Abs();
      assert s1 == s.(pc := s.pc + 1 + |token|);
      var token2;
      ok, token2 := ReadToken();
      if !ok {
        return;
      }
      if pc >= bytecode.Length {
        Fail(Undefined);
        return;
      }
      var argc := bytecode[pc];
      pc := pc + 1;
      assert Abs() == s.(pc := s.pc + 3 + |token| + |token2|);
      if !skip {
        CallCocoon(token, token2, argc);
      }
    }

    // ----- operators -----

    /** v2 is popped before v1. Comparisons push a new number, the others put v1 back as it was changed. */
    method OnBinary(op: BinOp)
      requires Valid() && fault.None?
      modifies this`stack, this`fault
      ensures Valid() && Became(Binary(host, old(Abs()), op))
    {
      hide Apply, Fresh;
      if stack == [] {
        Fail(RuntimeError);
        return;
      }
      var v2 := Pop();
      if stack == [] {
        Fail(RuntimeError);
        return;
      }
      var v1 := Pop();
      assert stack == Dropped(old(stack), 2);
      var r := Apply(host, op, v1.v, v2.v);
      if r.Err? {
        Fail(r.fault);
        return;
      }
      if Fresh(op) {
        PushDirect(r.value, None);
      } else {
        stack := stack + [v1.(v := r.value)];
      }
    }

    method OnSet()
      requires Valid() && fault.None?
      modifies this`stack, this`vars, this`fault
      ensures Valid() && Became(Assign(old(Abs())))
    {
      hide Put, Lookup;
      if stack == [] {
        Fail(RuntimeError);
        return;
      }
      var v2 := Pop();
      if stack == [] {
        Fail(Undefined);
        return;
      }
      var ref := stack[|stack| - 1].from;
      if ref.None? {
        Fail(RuntimeError);
        return;
      }
      if Lookup(vars, ref.value).None? {
        Fail(Undefined);
        return;
      }
      vars := Put(vars, ref.value, v2.v);
    }

    /** op_increment, op_decrement: the operand on the stack and the variable it refers to. */
    method OnBump(up: bool)
      requires Valid() && fault.None? && stack != []
      modifies this`stack, this`vars, this`fault
      ensures Valid() && Became(BumpTop(host, old(Abs()), up))
    {
      hide Put, Lookup, Values.Bump;
      var o := stack[|stack| - 1];
      var r := Values.Bump(host, up, o.v);
      if r.Err? {
        Fail(r.fault);
        return;
      }
      if o.from.Some? {
        var held := Lookup(vars, o.from.value);
        if held.None? || !held.value.Num? {
          Fail(Undefined);
          return;
        }
        vars := Put(vars, o.from.value, r.value);
      }
      stack := stack[..|stack| - 1] + [o.(v := r.value)];
    }

    method OnUnary(r: Result<Value>)
      requires Valid() && fault.None? && stack != []
      modifies this`stack, this`fault
      ensures Valid() && Became(Unary(old(Abs()), r))
    {
      if r.Err? {
        Fail(r.fault);
        return;
      }
      stack := stack[..|stack| - 1] + [stack[|stack| - 1].(v := r.value)];
    }

    method OnStackOp(op: Byte)
      requires Valid() && fault.None? && IsStackOp(op)
      modifies this`stack, this`vars, this`out, this`fault
      ensures Valid() && Became(ExecStackOp(host, old(Abs()), op))
    {
      hide Assign, BumpTop, Unary, Invert, Negate;
      if op == SET {
        OnSet();
      } else if op == PRINT {
        if stack == [] {
          Fail(RuntimeError);
          return;
        }
        var v1 := Pop();
        out := out + [v1.v];
      } else if op == AS_VOID {
        PushDirect(Unset, None);
      } else if op == MICROTIME {
        Fail(Unmodelled);
      } else if stack == [] {
        Fail(Undefined);
      } else if op == INCR {
        OnBump(true);
      } else if op == DECR {
        OnBump(false);
      } else if op == INVERT {
        OnUnary(Invert(host, stack[|stack| - 1].v));
      } else {
        OnUnary(Negate(host, stack[|stack| - 1].v));
      }
    }

    // ----- control flow -----

    method OnWhile()
      requires Valid() && fault.None? && pc > 0
      modifies this`gl, runFlag, retPoint
      ensures Valid() && Became(ExecControl(host, old(Abs()), WHILE))
    {
      gl := Inc(gl);
      retPoint[gl] := pc - 1;
      runFlag[gl] := RUN_WHILE;
    }

    method OnIf()
      requires Valid() && fault.None?
      modifies this`gl, runFlag
      ensures Valid() && Became(ExecControl(host, old(Abs()), IF))
    {
      gl := Inc(gl);
      runFlag[gl] := RUN_IF;
    }

    method OnElse()
      requires Valid() && fault.None?
      modifies this`gl, this`skip
      ensures Valid() && Became(ElseBranch(old(Abs())))
    {
      gl := Inc(gl);
      if runFlag[gl] == RUN_IF {
        skip := true;
        gl := Dec(gl);
      }
    }

    method OnCeit()
      requires Valid() && fault.None?
      modifies this, runFlag
      ensures Valid() && Became(CheckCondition(host, old(Abs())))
    {
      hide Truth;
      if stack == [] {
        Fail(RuntimeError);
        return;
      }
      var v1 := Pop();
      if !Truth(host, v1.v) {
        if runFlag[gl] == RUN_IF {
          runFlag[gl] := RUN_ELSE;
          gl := Dec(gl);
        } else if runFlag[gl] == RUN_WHILE {
          gl := Dec(gl);
        }
        skip := true;
      }
    }

    /** The loop of a return outside any block level. With all levels in use it never ends. */
    method Unwind()
      requires Valid() && fault.None?
      modifies this`pc, this`gl, this`fault
      ensures Valid() && Became(Unwound(old(Abs()), 256))
    {
      var left := 256;
      while runFlag[gl] != 0 && left > 0
        invariant 0 <= left <= 256 && Valid() && fault.None?
        invariant Unwound(Abs(), left) == Unwound(old(Abs()), 256)
        decreases left
      {
        pc := retPoint[gl];
        gl := Dec(gl);
        left := left - 1;
      }
      if runFlag[gl] != 0 {
        Fail(Hang);
      }
    }

    method OnReturn()
      requires Valid() && fault.None?
      modifies this`stack, this`pc, this`gl, this`fault
      ensures Valid() && Became(Machine.Return(host, old(Abs())))
    {
      hide Cleared, Unwound;
      var v1 := Operand(Num(host.zero), None, 0);
      if |stack| >= 1 {
        v1 := Pop();
        Clear();
      }
      stack := stack + [v1.(from := None)];
      if runFlag[gl] != RUN_BLOCK {
        Unwind();
        return;
      }
      pc := retPoint[gl];
      gl := Dec(gl);
    }

    method LeaveLevel()
      requires Valid() && fault.None? && !defMode
      modifies this`pc, this`gl, this`stack
      ensures Valid() && Became(EndBlock(host, old(Abs())))
    {
      hide Cleared;
      if runFlag[gl] == RUN_WHILE {
        pc := retPoint[gl];
        gl := Dec(gl);
      } else if runFlag[gl] == RUN_BLOCK {
        Clear();
        PushTagged(Num(host.zero));
        pc := retPoint[gl];
        gl := Dec(gl);
        return;
      } else {
        gl := Dec(gl);
      }
      Clear();
    }

    method OnBlockEnd()
      requires Valid() && fault.None?
      modifies this
      ensures Valid()
      ensures Became(AfterBlockEnd(host, old(Abs())))
    {
      hide Cleared;
      ghost var s := Abs();
      if defMode {
        if parentBlock.None? {
          Fail(Undefined);
          return;
        }
        parentBlock := parentBlock.value.parent;
        defMode := false;
      }
      ghost var t := Abs();
      assert t == LeaveDefinition(s) && LeaveDefinition(t) == t;
      assert EndBlock(host, t) == EndBlock(host, s);
      hide EndBlock;
      if skip {
        level := Dec(level);
        skip := level != 0;
        return;
      }
      LeaveLevel();
    }

    method OnControl(op: Byte)
      requires Valid() && fault.None? && pc > 0 && op != BLOCK_END
      modifies this, runFlag, retPoint
      ensures Valid() && Became(ExecControl(host, old(Abs()), op))
    {
      hide CheckCondition, ElseBranch, Machine.Return, EndBlock, Cleared;
      if op == IF {
        OnIf();
      } else if op == ELSE {
        OnElse();
      } else if op == WHILE {
        OnWhile();
      } else if op == CEIT {
        OnCeit();
      } else if op == RETURN {
        OnReturn();
      } else if op == CLEAR_STACK {
        Clear();
      } else if op == SKIP {
        skip := true;
      }
    }

    method OnOp(op: Byte)
      requires Valid() && fault.None? && pc > 0
      modifies this, bytecode, runFlag, retPoint
      ensures Valid() && Became(AfterPlain(host, old(Abs()), op))
    {
      hide AfterBlockEnd, Binary, ExecStackOp, ExecControl;
      if op == BLOCK_END {
        OnBlockEnd();
      } else if skip {
        if op == BLOCK_START {
          level := Inc(level);
        }
      } else if OpOf(op).Some? {
        OnBinary(OpOf(op).value);
      } else if IsStackOp(op) {
        OnStackOp(op);
      } else {
        OnControl(op);
      }
    }

    /** One round of the dispatch loop. */
    method Step()
      requires Valid() && !Halted(Abs())
      modifies this, bytecode, runFlag, retPoint
      ensures Valid() && Became(Machine.Step(host, old(Abs())))
    {
      hide AfterToken, AfterText, AfterDouble, AfterCount, AfterXcall, AfterPlain;
      ghost var s := Abs();
      if skip && bytecode[pc] >= 32 {
        pc := pc + 1;
        return;
      }
      DispatchSplits(host, s);
      hide Machine.Step;
      var op := bytecode[pc];
      pc := pc + 1;
      assert Abs() == s.(pc := s.pc + 1);
      if TakesToken(op) {
        OnToken(op);
      } else if TakesText(op) {
        OnText(op);
      } else if op == AS_DOUBLE {
        OnDouble();
      } else if op == REVERSE_STACK {
        OnReverse();
      } else if op == XCALL {
        OnXcall();
      } else {
        OnOp(op);
      }
    }

    /** larva_silk, on programs that come to a halt. */
    method Execute(ghost steps: nat)
      requires Valid() && Halted(Run(host, Abs(), steps))
      modifies this, bytecode, runFlag, retPoint
      ensures Valid()
      ensures var t := Run(host, old(Abs()), steps);
              Became(if t.fault.Some? then t else t.(stack := Cleared(t.stack, t.gl)))
    {
      hide Machine.Step, Cleared;
      ghost var left, s := steps, Abs();
      ghost var last := Run(host, s, steps);
      while fault.None? && pc < bytecode.Length
        invariant Valid()
        invariant fault.None? ==> Run(host, Abs(), left) == last
        invariant fault.Some? ==> fault == last.fault
        decreases left
      {
        ghost var was := Abs();
        assert left > 0;
        Step();
        left := left - 1;
        if fault.Some? { HaltedRun(host, Machine.Step(host, was), left); }
      }
      if fault.None? {
        HaltedRun(host, Abs(), left);
        Clear();
      }
    }
  }

  lemma HaltedRun(h: Host, s: State, n: nat)
    requires Halted(s)
    ensures Run(h, s, n) == s
  {
  }
}
