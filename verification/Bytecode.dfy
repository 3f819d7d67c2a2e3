/** Bytes, tokens and the handful of shared shapes used by every other module. */
module Bytes {
  type Byte = b: int | 0 <= b < 256

  /** A C string without its terminating zero. */
  type Name = seq<Byte>

  /** A C double is only ever seen through its eight bytes. */
  type Double = b: seq<Byte> | |b| == 8 witness [0, 0, 0, 0, 0, 0, 0, 0]

  datatype Option<+T> = None | Some(value: T)

  const NUL: Byte := 0
  const DOT: Byte := 46

  /** What stops a run: a reported error, undefined behaviour of the C code,
      or an instruction this model does not execute. */
  datatype Fault = RuntimeError | Undefined | Hang | Unmodelled

  datatype Result<+T> = Ok(value: T) | Err(fault: Fault)

  /** bytes stand in code from pc on. */
  ghost predicate At(code: seq<Byte>, pc: nat, bytes: seq<Byte>) {
    pc + |bytes| <= |code| && forall k {:trigger bytes[k]} :: 0 <= k < |bytes| ==> code[pc + k] == bytes[k]
  }

  lemma AtSplit(code: seq<Byte>, pc: nat, a: seq<Byte>, b: seq<Byte>)
    requires At(code, pc, a + b)
    ensures At(code, pc, a) && At(code, pc + |a|, b)
  {
    forall k | 0 <= k < |a| ensures code[pc + k] == a[k] { assert (a + b)[k] == a[k]; }
    forall k | 0 <= k < |b| ensures code[pc + |a| + k] == b[k] { assert (a + b)[|a| + k] == b[k]; }
  }

  /** The bytes of a text in plain letters. */
  function Ascii(s: string): (t: seq<Byte>)
    requires forall i :: 0 <= i < |s| ==> s[i] as int < 128
    ensures |t| == |s| && forall i :: 0 <= i < |s| ==> t[i] == s[i] as int
  {
    seq(|s|, i requires 0 <= i < |s| => var b: Byte := s[i] as int; b)
  }

  lemma AtSlice(code: seq<Byte>, pc: nat, bytes: seq<Byte>)
    requires At(code, pc, bytes)
    ensures code[pc..pc + |bytes|] == bytes
  {
  }
}

/** core/bytecode.h and core/bytecode.c: opcodes, instruction layout, decoding. */
module Bytecode {
  import opened Bytes

  const IDLE: Byte := 0
  const VAR: Byte := 1
  const VARX: Byte := 2
  const AS_STRING: Byte := 3
  const AS_DOUBLE: Byte := 4
  const AS_VAR: Byte := 5
  const CALL: Byte := 6
  const BLOCK_DEF: Byte := 7
  const BLOCK_START: Byte := 8
  const BLOCK_END: Byte := 9
  const REVERSE_STACK: Byte := 10
  const PARAM: Byte := 11
  const PARAMX: Byte := 12
  const ACCESS: Byte := 13
  const FROM_JSON: Byte := 14
  const XCALL: Byte := 15
  const SET_ELEM: Byte := 16
  const ADD_ELEM: Byte := 17
  const SET: Byte := 32
  const ADD: Byte := 35
  const SUB: Byte := 36
  const MUL: Byte := 37
  const DIV: Byte := 38
  const POW: Byte := 39
  const MOD: Byte := 40
  const INCR: Byte := 41
  const DECR: Byte := 42
  const UNARY_MINUS: Byte := 43
  const INVERT: Byte := 44
  const CMP: Byte := 45
  const CMP_NOT: Byte := 46
  const AND: Byte := 47
  const OR: Byte := 48
  const LESS: Byte := 49
  const LESS_EQ: Byte := 50
  const MORE: Byte := 51
  const MORE_EQ: Byte := 52
  const IF: Byte := 60
  const ELSE: Byte := 61
  const WHILE: Byte := 62
  const RETURN: Byte := 63
  const CLEAR_STACK: Byte := 64
  const CEIT: Byte := 65
  const SKIP: Byte := 66
  const PRINT: Byte := 200
  const MICROTIME: Byte := 201
  const AS_VOID: Byte := 203

  /** An instruction together with its operand bytes. */
  datatype Instr =
    | Op(code: Byte)
    | Tok(code: Byte, token: Name)
    | Dbl(bits: Double)
    | Text(code: Byte, text: seq<Byte>)
    | Rev(count: Byte)
    | Xcall(lib: Name, fn: Name, argc: Byte)

  /** Opcodes followed by a length byte and a token. */
  predicate TakesToken(op: Byte) {
    op == VAR || op == VARX || op == AS_VAR || op == CALL || op == BLOCK_DEF || op == PARAM ||
    op == PARAMX || op == ACCESS || op == SET_ELEM || op == ADD_ELEM
  }

  predicate TakesText(op: Byte) {
    op == AS_STRING || op == FROM_JSON
  }

  predicate Plain(op: Byte) {
    !TakesToken(op) && !TakesText(op) && op != AS_DOUBLE && op != REVERSE_STACK && op != XCALL
  }

  /** The operand lengths the emitter stores without truncation. */
  predicate Encodable(i: Instr) {
    match i
    case Op(c) => Plain(c)
    case Tok(c, t) => TakesToken(c) && |t| < 256
    case Dbl(_) => true
    case Text(c, t) => TakesText(c) && |t| < 65536
    case Rev(_) => true
    case Xcall(l, f, _) => |l| < 256 && |f| < 256
  }

  /** bc_add_token: the length is cut to one byte, the bytes are not. */
  function TokenBytes(t: Name): (r: seq<Byte>) {
    [|t| % 256] + t
  }

  /** bc_add_string: the length is a uint16 and cuts the bytes as well. */
  function TextBytes(t: seq<Byte>): (r: seq<Byte>) {
    var n := |t| % 65536;
    [n % 256, n / 256] + t[..n]
  }

  function Encode(i: Instr): (r: seq<Byte>) {
    match i
    case Op(c) => [c]
    case Tok(c, t) => [c] + TokenBytes(t)
    case Dbl(b) => [AS_DOUBLE] + b
    case Text(c, t) => [c] + TextBytes(t)
    case Rev(n) => [REVERSE_STACK, n]
    case Xcall(l, f, n) => [XCALL] + TokenBytes(l) + TokenBytes(f) + [n]
  }

  function Flatten(ins: seq<Instr>): (r: seq<Byte>) {
    if ins == [] then [] else Encode(ins[0]) + Flatten(ins[1..])
  }

  function TokenAt(code: seq<Byte>, pc: nat): (r: Option<Name>) {
    if pc < |code| && pc + 1 + code[pc] <= |code| then Some(code[pc + 1..pc + 1 + code[pc]]) else None
  }

  /** Reads one instruction with the operand widths of the dispatch loop. */
  function Decode(code: seq<Byte>, pc: nat): (r: Option<(Instr, nat)>)
    ensures r.Some? ==> pc < |code| && pc < r.value.1 <= |code|
  {
    if pc >= |code| then None
    else
      var op := code[pc];
      if TakesToken(op) then
        match TokenAt(code, pc + 1)
        case None => None
        case Some(t) => Some((Tok(op, t), pc + 2 + |t|))
      else if TakesText(op) then
        if pc + 3 > |code| then None
        else
          var n := code[pc + 1] as int + 256 * (code[pc + 2] as int);
          if pc + 3 + n > |code| then None else Some((Text(op, code[pc + 3..pc + 3 + n]), pc + 3 + n))
      else if op == AS_DOUBLE then
        if pc + 9 > |code| then None else Some((Dbl(code[pc + 1..pc + 9]), pc + 9))
      else if op == REVERSE_STACK then
        if pc + 2 > |code| then None else Some((Rev(code[pc + 1]), pc + 2))
      else if op == XCALL then
        match TokenAt(code, pc + 1)
        case None => None
        case Some(l) =>
          match TokenAt(code, pc + 2 + |l|)
          case None => None
          case Some(f) =>
            var a := pc + 3 + |l| + |f|;
            if a >= |code| then None else Some((Xcall(l, f, code[a]), a + 1))
      else Some((Op(op), pc + 1))
  }

  lemma TokenAtBytes(code: seq<Byte>, pc: nat, t: Name)
    requires At(code, pc, TokenBytes(t)) && |t| < 256
    ensures TokenAt(code, pc) == Some(t)
  {
    assert TokenBytes(t)[0] == |t|;
    AtSplit(code, pc, [|t| % 256], t);
    AtSlice(code, pc + 1, t);
  }

  lemma DecodeTok(code: seq<Byte>, pc: nat, i: Instr)
    requires i.Tok? && Encodable(i) && At(code, pc, Encode(i))
    ensures Decode(code, pc) == Some((i, pc + |Encode(i)|))
  {
    AtSplit(code, pc, [i.code], TokenBytes(i.token));
    assert [i.code][0] == i.code;
    TokenAtBytes(code, pc + 1, i.token);
  }

  lemma DecodeText(code: seq<Byte>, pc: nat, i: Instr)
    requires i.Text? && Encodable(i) && At(code, pc, Encode(i))
    ensures Decode(code, pc) == Some((i, pc + |Encode(i)|))
  {
    var t := i.text;
    var head := [i.code, |t| % 256, |t| / 256];
    assert Encode(i) == head + t;
    AtSplit(code, pc, head, t);
    assert head[0] == i.code && head[1] == |t| % 256 && head[2] == |t| / 256;
    AtSlice(code, pc + 3, t);
  }

  lemma DecodeXcall(code: seq<Byte>, pc: nat, i: Instr)
    requires i.Xcall? && Encodable(i) && At(code, pc, Encode(i))
    ensures Decode(code, pc) == Some((i, pc + |Encode(i)|))
  {
    var l, f := TokenBytes(i.lib), TokenBytes(i.fn);
    AtSplit(code, pc, [XCALL] + l + f, [i.argc]);
    AtSplit(code, pc, [XCALL] + l, f);
    AtSplit(code, pc, [XCALL], l);
    TokenAtBytes(code, pc + 1, i.lib);
    TokenAtBytes(code, pc + 2 + |i.lib|, i.fn);
    assert [XCALL][0] == XCALL && [i.argc][0] == i.argc;
  }

  /** Decoding at an encoded instruction gives it back, with the position after it. */
  lemma DecodeEncode(code: seq<Byte>, pc: nat, i: Instr)
    requires Encodable(i) && At(code, pc, Encode(i))
    ensures Decode(code, pc) == Some((i, pc + |Encode(i)|))
  {
    match i
    case Op(c) => assert Encode(i)[0] == c;
    case Tok(_, _) => DecodeTok(code, pc, i);
    case Dbl(b) =>
      assert Encode(i)[0] == AS_DOUBLE;
      AtSplit(code, pc, [AS_DOUBLE], b);
      AtSlice(code, pc + 1, b);
    case Text(_, _) => DecodeText(code, pc, i);
    case Rev(n) => assert Encode(i)[0] == REVERSE_STACK && Encode(i)[1] == n;
    case Xcall(_, _, _) => DecodeXcall(code, pc, i);
  }

  lemma {:induction false} FlattenConcat(a: seq<Instr>, b: seq<Instr>)
    ensures Flatten(a + b) == Flatten(a) + Flatten(b)
  {
    if a == [] {
      assert a + b == b;
    } else {
      assert (a + b)[0] == a[0] && (a + b)[1..] == a[1..] + b;
      FlattenConcat(a[1..], b);
      assert Encode(a[0]) + (Flatten(a[1..]) + Flatten(b)) == Encode(a[0]) + Flatten(a[1..]) + Flatten(b);
    }
  }

  // ----- instruction lists placed in a code buffer -----

  function Size(i: Instr): (n: nat)
    ensures n == |Encode(i)| && n >= 1
    ensures i.Op? ==> n == 1
  {
    |Encode(i)|
  }

  function Len(ins: seq<Instr>): (n: nat) {
    if ins == [] then 0 else Size(ins[0]) + Len(ins[1..])
  }

  /** Reading code from pc on yields exactly the instructions ins. */
  ghost predicate Has(code: seq<Byte>, pc: nat, ins: seq<Instr>)
    decreases |ins|
  {
    ins == [] || (Decode(code, pc) == Some((ins[0], pc + Size(ins[0]))) && Has(code, pc + Size(ins[0]), ins[1..]))
  }

  /** Emit, then decode: the same instruction list, whatever surrounds it. */
  lemma {:induction false} FlattenHas(code: seq<Byte>, pc: nat, ins: seq<Instr>)
    requires At(code, pc, Flatten(ins))
    requires forall i :: i in ins ==> Encodable(i)
    ensures Has(code, pc, ins) && Len(ins) == |Flatten(ins)|
    decreases |ins|
  {
    hide Decode, Encode;
    if ins != [] {
      AtSplit(code, pc, Encode(ins[0]), Flatten(ins[1..]));
      DecodeEncode(code, pc, ins[0]);
      FlattenHas(code, pc + Size(ins[0]), ins[1..]);
    }
  }

  lemma {:induction false} HasConcat(code: seq<Byte>, pc: nat, a: seq<Instr>, b: seq<Instr>)
    ensures Len(a + b) == Len(a) + Len(b)
    ensures Has(code, pc, a + b) <==> Has(code, pc, a) && Has(code, pc + Len(a), b)
    decreases |a|
  {
    hide Decode, Encode;
    if a == [] {
      assert a + b == b;
    } else {
      assert (a + b)[0] == a[0] && (a + b)[1..] == a[1..] + b;
      HasConcat(code, pc + Size(a[0]), a[1..], b);
    }
  }

  lemma HasOne(code: seq<Byte>, pc: nat, i: Instr)
    requires Has(code, pc, [i])
    ensures Len([i]) == Size(i) && Decode(code, pc) == Some((i, pc + Size(i)))
  {
    hide Decode, Encode;
    assert [i][1..] == [];
  }

  // ----- instructions only depend on their own bytes -----

  lemma DecodeLocal(a: seq<Byte>, b: seq<Byte>, pc: nat)
    requires |a| == |b| && Decode(a, pc).Some?
    requires forall k :: pc <= k < Decode(a, pc).value.1 ==> a[k] == b[k]
    ensures Decode(b, pc) == Decode(a, pc)
  {
    hide TokenAt;
    var next := Decode(a, pc).value.1;
    assert a[pc] == b[pc];
    if TakesToken(a[pc]) || a[pc] == XCALL {
      TokenLocal(a, b, pc + 1, next);
      if a[pc] == XCALL {
        var l := TokenAt(a, pc + 1).value;
        TokenLocal(a, b, pc + 2 + |l|, next);
      }
    } else if TakesText(a[pc]) {
      SliceLocal(a, b, pc, pc + 3, next);
    } else if a[pc] == AS_DOUBLE {
      SliceLocal(a, b, pc, pc + 1, next);
    }
  }

  lemma SliceLocal(a: seq<Byte>, b: seq<Byte>, pc: nat, start: nat, next: nat)
    requires |a| == |b| && pc <= start <= next <= |a| && forall k :: pc <= k < next ==> a[k] == b[k]
    ensures a[start..next] == b[start..next]
  {
  }

  lemma TokenLocal(a: seq<Byte>, b: seq<Byte>, pc: nat, next: nat)
    requires |a| == |b| && TokenAt(a, pc).Some? && pc + 1 + |TokenAt(a, pc).value| <= next <= |a|
    requires forall k :: pc <= k < next ==> a[k] == b[k]
    ensures TokenAt(b, pc) == TokenAt(a, pc)
  {
    assert a[pc] == b[pc];
    assert a[pc + 1..pc + 1 + a[pc]] == b[pc + 1..pc + 1 + a[pc]];
  }

  lemma {:induction false} HasLocal(a: seq<Byte>, b: seq<Byte>, pc: nat, ins: seq<Instr>)
    requires |a| == |b| && Has(a, pc, ins)
    requires forall k :: pc <= k < pc + Len(ins) && k < |a| ==> a[k] == b[k]
    ensures Has(b, pc, ins)
    decreases |ins|
  {
    hide Decode, Encode;
    if ins != [] {
      DecodeLocal(a, b, pc);
      HasLocal(a, b, pc + Size(ins[0]), ins[1..]);
    }
  }
}
