/** core/larva_silk.c and core/stack.c as a transition function on values: one dispatch of the byte-code loop. */
module Machine {
  import opened Bytes
  import opened Bytecode
  import opened Values
  import opened Tables

  const RUN_IF: Byte := 1
  const RUN_ELSE: Byte := 2
  const RUN_WHILE: Byte := 3
  const RUN_BLOCK: Byte := 4

  /** A stack entry: its value, the variable it was read from, and the level tag. */
  datatype Operand = Operand(v: Value, from: Option<Name>, level: Byte)

  datatype Block = Block(name: Name, pos: nat, parent: Option<Block>)

  type Vars = t: Table<Value> | |t.buckets| > 0 witness Table([[]])
  type Flags = s: seq<Byte> | |s| == 256 witness seq(256, i => 0)
  type Points = s: seq<nat> | |s| == 256 witness seq(256, i => 0)

  datatype State = State(
    code: seq<Byte>,
    pc: nat,
    stack: seq<Operand>,
    vars: Vars,
    blocks: map<Name, Block>,
    out: seq<Value>,
    gl: Byte,
    runFlag: Flags,
    retPoint: Points,
    skip: bool,
    level: Byte,
    defMode: bool,
    thisBlock: Option<Block>,
    parentBlock: Option<Block>,
    paramCount: int,
    fault: Option<Fault>
  )

  function Halt(s: State, f: Fault): (r: State) {
    s.(fault := Some(f))
  }

  /** BYTE counters wrap around. */
  function Inc(b: Byte): (r: Byte) {
    (b as int + 1) % 256
  }

  function Dec(b: Byte): (r: Byte) {
    (b as int - 1) % 256
  }

  // ----- core/stack.c -----

  function Top(s: State): (o: Operand)
    requires s.stack != []
  {
    s.stack[|s.stack| - 1]
  }

  function Dropped(stack: seq<Operand>, n: nat): (r: seq<Operand>)
    requires n <= |stack|
  {
    stack[..|stack| - n]
  }

  function Push(s: State, o: Operand): (r: State) {
    s.(stack := s.stack + [o])
  }

  function ReplaceTop(s: State, o: Operand): (r: State)
    requires s.stack != []
  {
    s.(stack := Dropped(s.stack, 1) + [o])
  }

  /** stack_clear: drops entries from the top until one is tagged below the level. */
  function Cleared(stack: seq<Operand>, gl: Byte): (r: seq<Operand>)
    ensures r <= stack
  {
    if stack == [] || stack[|stack| - 1].level < gl then stack else Cleared(stack[..|stack| - 1], gl)
  }

  // ----- instructions with a token -----

  function ReadVar(s: State, t: Name): (r: State) {
    match LookupPrefix(s.vars, t)
    case None => Halt(s, RuntimeError)
    case Some(x) =>
      match Lookup(s.vars, x)
      case None => Halt(s, Undefined)
      case Some(v) => Push(s, Operand(v, Some(x), 0))
  }

  function DefineVar(s: State, t: Name): (r: State) {
    if s.stack == [] then Halt(s, RuntimeError)
    else s.(vars := Put(Declare(s.vars, t, Null), t, Top(s).v), stack := Dropped(s.stack, 1))
  }

  function EnterBlock(s: State, t: Name): (r: State) {
    if t !in s.blocks then Halt(s, RuntimeError)
    else
      var b, g := s.blocks[t], Inc(s.gl);
      s.(thisBlock := Some(b), gl := g, retPoint := s.retPoint[g := s.pc], runFlag := s.runFlag[g := RUN_BLOCK],
         pc := b.pos)
  }

  function TakeParam(s: State, t: Name): (r: State) {
    if s.paramCount == 0 then Halt(s, RuntimeError)
    else if s.stack == [] then Halt(s, Undefined)
    else s.(paramCount := s.paramCount - 1, vars := Put(Declare(s.vars, t, Null), t, Top(s).v),
            stack := Dropped(s.stack, 1))
  }

  /** A parameter with a default: the default lies above the argument, if there is one. */
  function TakeParamOr(s: State, t: Name): (r: State) {
    if s.stack == [] then Halt(s, RuntimeError)
    else
      var n := if |s.stack| >= 2 then 2 else 1;
      var given := if n == 2 then s.stack[|s.stack| - 2].v else Unset;
      var v := if given == Unset || s.paramCount - 1 < 0 then Top(s).v else given;
      s.(paramCount := s.paramCount - 1, vars := Put(Declare(s.vars, t, Null), t, v), stack := Dropped(s.stack, n))
  }

  /** Inside a called block, definitions carry that block's name as a prefix. */
  function QualifiedName(s: State, t: Name): (r: Name) {
    match s.thisBlock
    case None => t
    case Some(b) => b.name + [DOT] + t
  }

  /** The definition overwrites its own opcode, length and token with IDLE bytes and one SKIP. */
  function Patched(code: seq<Byte>, start: nat, size: nat): (r: seq<Byte>)
    requires start + size + 2 <= |code|
    ensures |r| == |code|
  {
    code[..start] + seq(size + 1, i => IDLE) + [SKIP] + code[start + size + 2..]
  }

  /** s.pc is already behind the token, which ends a definition of |t| + 2 bytes. */
  function DefineBlock(s: State, t: Name): (r: State) {
    var start := s.pc - |t| - 2;
    if start < 0 || s.pc > |s.code| then Halt(s, Undefined)
    else
      var name := QualifiedName(s, t);
      var isNew := name !in s.blocks;
      var b := Block(name, s.pc, s.thisBlock);
      s.(blocks := if isNew then s.blocks[name := b] else s.blocks,
         parentBlock := if isNew then Some(b) else None,
         code := Patched(s.code, start, |t|), skip := true, defMode := true)
  }

  function ExecTok(s: State, c: Byte, t: Name): (r: State) {
    if c == AS_VAR then ReadVar(s, t)
    else if c == VAR then s.(vars := Declare(s.vars, t, Null))
    else if c == VARX then DefineVar(s, t)
    else if c == CALL then EnterBlock(s, t)
    else if c == PARAM then TakeParam(s, t)
    else if c == PARAMX then TakeParamOr(s, t)
    else if c == BLOCK_DEF then DefineBlock(s, t)
    else Halt(s, Unmodelled)
  }

  // ----- instructions without operand bytes -----

  function OpOf(c: Byte): (r: Option<BinOp>) {
    if c == OR then Some(BinOp.Or)
    else if c == AND then Some(BinOp.And)
    else if c == CMP then Some(Eq)
    else if c == CMP_NOT then Some(Ne)
    else if c == LESS then Some(Lt)
    else if c == LESS_EQ then Some(Le)
    else if c == MORE then Some(Gt)
    else if c == MORE_EQ then Some(Ge)
    else if c == ADD then Some(BinOp.Add)
    else if c == SUB then Some(BinOp.Sub)
    else if c == MUL then Some(BinOp.Mul)
    else if c == DIV then Some(BinOp.Div)
    else if c == MOD then Some(BinOp.Mod)
    else if c == POW then Some(BinOp.Pow)
    else None
  }

  function Binary(h: Host, s: State, op: BinOp): (r: State) {
    if |s.stack| < 2 then Halt(s, RuntimeError)
    else
      var a, b := s.stack[|s.stack| - 2], Top(s);
      match Apply(h, op, a.v, b.v)
      case Err(f) => Halt(s, f)
      case Ok(v) =>
        s.(stack := Dropped(s.stack, 2) + [if Fresh(op) then Operand(v, None, 0) else a.(v := v)])
  }

  /** The left operand stays on the stack with the value it had before. */
  function Assign(s: State): (r: State) {
    if s.stack == [] then Halt(s, RuntimeError)
    else if |s.stack| < 2 then Halt(s, Undefined)
    else
      match s.stack[|s.stack| - 2].from
      case None => Halt(s, RuntimeError)
      case Some(x) =>
        if Lookup(s.vars, x).None? then Halt(s, Undefined)
        else s.(vars := Put(s.vars, x, Top(s).v), stack := Dropped(s.stack, 1))
  }

  function Unary(s: State, r: Result<Value>): (t: State)
    requires s.stack != []
  {
    match r
    case Err(f) => Halt(s, f)
    case Ok(v) => ReplaceTop(s, Top(s).(v := v))
  }

  /** ++ and -- also write through to the variable the operand came from; it must hold a number. */
  function BumpTop(h: Host, s: State, up: bool): (r: State)
    requires s.stack != []
  {
    var o := Top(s);
    match Bump(h, up, o.v)
    case Err(f) => Halt(s, f)
    case Ok(v) =>
      var t := ReplaceTop(s, o.(v := v));
      match o.from
      case None => t
      case Some(x) =>
        match Lookup(s.vars, x)
        case Some(held) => if held.Num? then t.(vars := Put(s.vars, x, v)) else Halt(s, Undefined)
        case None => Halt(s, Undefined)
  }

  function CheckCondition(h: Host, s: State): (r: State) {
    if s.stack == [] then Halt(s, RuntimeError)
    else
      var t := s.(stack := Dropped(s.stack, 1));
      if Truth(h, Top(s).v) then t
      else if s.runFlag[s.gl] == RUN_IF then
        t.(runFlag := s.runFlag[s.gl := RUN_ELSE], gl := Dec(s.gl), skip := true)
      else if s.runFlag[s.gl] == RUN_WHILE then t.(gl := Dec(s.gl), skip := true)
      else t.(skip := true)
  }

  function ElseBranch(s: State): (r: State) {
    if s.runFlag[Inc(s.gl)] == RUN_IF then s.(skip := true) else s.(gl := Inc(s.gl))
  }

  /** Leaves levels until one carries no run flag; n bounds the levels left to try. */
  function Unwound(s: State, n: nat): (r: State)
    decreases n
  {
    if s.runFlag[s.gl] == 0 then s
    else if n == 0 then Halt(s, Hang)
    else Unwound(s.(pc := s.retPoint[s.gl], gl := Dec(s.gl)), n - 1)
  }

  function Return(h: Host, s: State): (r: State) {
    var o := if s.stack == [] then Operand(Num(h.zero), None, 0) else Top(s).(from := None);
    var rest := if s.stack == [] then [] else Cleared(Dropped(s.stack, 1), s.gl);
    var t := s.(stack := rest + [o]);
    if s.runFlag[s.gl] != RUN_BLOCK then Unwound(t, 256)
    else t.(pc := s.retPoint[s.gl], gl := Dec(s.gl))
  }

  /** The first block end after a definition leaves definition mode. */
  function LeaveDefinition(s: State): (r: State) {
    if !s.defMode then s
    else
      match s.parentBlock
      case None => Halt(s, Undefined)
      case Some(b) => s.(parentBlock := b.parent, defMode := false)
  }

  function EndBlock(h: Host, s0: State): (r: State) {
    var s := LeaveDefinition(s0);
    if s.fault.Some? then s
    else if s.runFlag[s.gl] == RUN_WHILE then
      s.(pc := s.retPoint[s.gl], gl := Dec(s.gl), stack := Cleared(s.stack, Dec(s.gl)))
    else if s.runFlag[s.gl] == RUN_BLOCK then
      s.(stack := Cleared(s.stack, s.gl) + [Operand(Num(h.zero), None, s.gl)],
         pc := s.retPoint[s.gl], gl := Dec(s.gl))
    else s.(gl := Dec(s.gl), stack := Cleared(s.stack, Dec(s.gl)))
  }

  function ExecStackOp(h: Host, s: State, c: Byte): (r: State) {
    if c == SET then Assign(s)
    else if c == PRINT then
      if s.stack == [] then Halt(s, RuntimeError)
      else s.(out := s.out + [Top(s).v], stack := Dropped(s.stack, 1))
    else if c == AS_VOID then Push(s, Operand(Unset, None, 0))
    else if c == MICROTIME then Halt(s, Unmodelled)
    else if s.stack == [] then Halt(s, Undefined)
    else if c == INCR then BumpTop(h, s, true)
    else if c == DECR then BumpTop(h, s, false)
    else if c == INVERT then Unary(s, Invert(h, Top(s).v))
    else Unary(s, Negate(h, Top(s).v))
  }

  function ExecControl(h: Host, s: State, c: Byte): (r: State) {
    if c == IF then s.(gl := Inc(s.gl), runFlag := s.runFlag[Inc(s.gl) := RUN_IF])
    else if c == ELSE then ElseBranch(s)
    else if c == WHILE then
      s.(gl := Inc(s.gl), runFlag := s.runFlag[Inc(s.gl) := RUN_WHILE],
         retPoint := s.retPoint[Inc(s.gl) := if s.pc > 0 then s.pc - 1 else 0])
    else if c == CEIT then CheckCondition(h, s)
    else if c == RETURN then Return(h, s)
    else if c == CLEAR_STACK then s.(stack := Cleared(s.stack, s.gl))
    else if c == SKIP then s.(skip := true)
    else if c == BLOCK_END then EndBlock(h, s)
    else s
  }

  predicate IsStackOp(c: Byte) {
    c == SET || c == PRINT || c == AS_VOID || c == MICROTIME || c == INCR || c == DECR || c == INVERT ||
    c == UNARY_MINUS
  }

  function ExecOp(h: Host, s: State, c: Byte): (r: State) {
    match OpOf(c)
    case Some(op) => Binary(h, s, op)
    case None => if IsStackOp(c) then ExecStackOp(h, s, c) else ExecControl(h, s, c)
  }

  // ----- one dispatch -----

  function ReverseTop(s: State, n: Byte): (r: State) {
    if |s.stack| < n then Halt(s, Undefined)
    else
      s.(stack := Dropped(s.stack, n) + Reversed(s.stack[|s.stack| - n..]), paramCount := n)
  }

  function ValuesOf(ops: seq<Operand>): (r: seq<Value>)
    ensures |r| == |ops|
  {
    if ops == [] then [] else [ops[0].v] + ValuesOf(ops[1..])
  }

  function CallForeign(h: Host, s: State, lib: Name, fn: Name, argc: Byte): (r: State) {
    if |s.stack| < argc then Halt(s, Undefined)
    else
      match h.foreign(lib, fn, ValuesOf(s.stack[|s.stack| - argc..]))
      case Err(f) => Halt(s, f)
      case Ok(v) => s.(stack := Dropped(s.stack, argc) + [Operand(v, None, s.gl)])
  }

  /** Executes an instruction; next is the position behind its operand bytes. */
  function Exec(h: Host, s0: State, i: Instr, next: nat): (r: State) {
    var s := s0.(pc := next);
    match i
    case Op(c) => ExecOp(h, s, c)
    case Tok(c, t) => ExecTok(s, c, t)
    case Dbl(b) => Push(s, Operand(Num(b), None, 0))
    case Text(c, t) => if c == AS_STRING then Push(s, Operand(Str(t), None, s.gl)) else Halt(s, Unmodelled)
    case Rev(n) => ReverseTop(s, n)
    case Xcall(l, f, n) => CallForeign(h, s, l, f, n)
  }

  /** In skip mode only braces count, and ADD_ELEM forgets to look at the mode. */
  function SkipOver(s0: State, i: Instr, next: nat): (r: State) {
    var s := s0.(pc := next);
    match i
    case Op(c) =>
      if c == BLOCK_START then s.(level := Inc(s.level))
      else if c == BLOCK_END then
        var t := LeaveDefinition(s);
        if t.fault.Some? then t else t.(level := Dec(t.level), skip := Dec(t.level) != 0)
      else s
    case Tok(c, _) => if c == ADD_ELEM then Halt(s, Unmodelled) else s
    case _ => s
  }

  predicate Halted(s: State) {
    s.fault.Some? || s.pc >= |s.code|
  }

  function Step(h: Host, s: State): (r: State)
    requires !Halted(s)
  {
    if s.skip && s.code[s.pc] >= 32 then s.(pc := s.pc + 1)
    else
      match Decode(s.code, s.pc)
      case None => Halt(s, Undefined)
      case Some((i, next)) => if s.skip then SkipOver(s, i, next) else Exec(h, s, i, next)
  }

  function Run(h: Host, s: State, n: nat): (r: State)
    decreases n
  {
    if n == 0 || Halted(s) then s else Run(h, Step(h, s), n - 1)
  }

  lemma {:induction false} RunAdd(h: Host, s: State, a: nat, b: nat)
    ensures Run(h, s, a + b) == Run(h, Run(h, s, a), b)
    decreases a
  {
    hide Step;
    if a != 0 && !Halted(s) {
      RunAdd(h, Step(h, s), a - 1, b);
    }
  }

  /** bc_ready and the locals of larva_silk, for code emitted into a buffer. */
  function Start(emitted: seq<Byte>): (s: State) {
    State(emitted + [IDLE], 0, [], Tables.Empty(1000), map[], [], 0, seq(256, i => 0), seq(256, i => 0),
          false, 0, false, None, None, 0, None)
  }
}
