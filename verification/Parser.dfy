/** core/expression.c in its own form: readers that advance a position and append code while they read. */
module Parser {
  import opened Bytes
  import opened Bytecode
  import opened Values
  import opened Syntax
  import opened Grammar

  /** The bytes an expression is emitted as. */
  function Emit(h: Host, e: Expr): (r: seq<Byte>) {
    Flatten(Compile(h, e))
  }

  function EmitArgs(h: Host, args: seq<Expr>): (r: seq<Byte>) {
    Flatten(CompileArgs(h, args))
  }

  lemma FlattenOne(i: Instr)
    ensures Flatten([i]) == Encode(i)
  {
    assert Flatten([i]) == Encode(i) + Flatten([i][1..]) == Encode(i) + [];
  }

  lemma EmitThen(a: seq<Instr>, i: Instr)
    ensures Flatten(a + [i]) == Flatten(a) + Encode(i)
  {
    FlattenConcat(a, [i]);
    FlattenOne(i);
  }

  /** An expression made of one operand and a last instruction. */
  lemma EmitAfter(h: Host, e: Expr, a: Expr, i: Instr)
    requires Compile(h, e) == Compile(h, a) + [i]
    ensures Emit(h, e) == Emit(h, a) + Encode(i)
  {
    hide Compile;
    EmitThen(Compile(h, a), i);
  }

  /** An expression made of two operands and a last instruction. */
  lemma EmitPair(h: Host, e: Expr, l: Expr, r: Expr, i: Instr)
    requires Compile(h, e) == Compile(h, l) + Compile(h, r) + [i]
    ensures Emit(h, e) == Emit(h, l) + Emit(h, r) + Encode(i)
  {
    hide Compile;
    FlattenConcat(Compile(h, l), Compile(h, r));
    EmitThen(Compile(h, l) + Compile(h, r), i);
  }

  /** One more operator: the code so far, the right operand's code, and the operator's byte. */
  lemma EmitBin(h: Host, op: BinOp, l: Expr, r: Expr, before: seq<Byte>)
    ensures before + Emit(h, l) + Emit(h, r) + [OpCode(op)] == before + Emit(h, Bin(op, l, r))
  {
    hide Emit, OpCode;
    EmitPair(h, Bin(op, l, r), l, r, Op(OpCode(op)));
    Regrouped(before, Emit(h, l), Emit(h, r), [OpCode(op)]);
  }

  lemma Regrouped(a: seq<Byte>, b: seq<Byte>, c: seq<Byte>, d: seq<Byte>)
    ensures a + b + c + d == a + (b + c + d)
  {
  }

  lemma EmitAssign(h: Host, l: Expr, r: Expr, before: seq<Byte>)
    ensures before + Emit(h, l) + Emit(h, r) + [SET] == before + Emit(h, Expr.Assign(l, r))
  {
    hide Emit;
    EmitPair(h, Expr.Assign(l, r), l, r, Op(SET));
    Regrouped(before, Emit(h, l), Emit(h, r), [SET]);
  }

  lemma EmitPrefix(h: Host, e: Expr, before: seq<Byte>)
    ensures before + Emit(h, e) + [INVERT] == before + Emit(h, Not(e))
    ensures before + Emit(h, e) + [UNARY_MINUS] == before + Emit(h, Minus(e))
    ensures before + Emit(h, e) + [INCR] == before + Emit(h, Expr.Bump(true, e))
    ensures before + Emit(h, e) + [DECR] == before + Emit(h, Expr.Bump(false, e))
    ensures before + Emit(h, e) + [PRINT] == before + Emit(h, Print(e))
  {
    EmitAfter(h, Print(e), e, Op(PRINT));
    EmitAfter(h, Not(e), e, Op(INVERT));
    EmitAfter(h, Minus(e), e, Op(UNARY_MINUS));
    EmitAfter(h, Expr.Bump(true, e), e, Op(INCR));
    EmitAfter(h, Expr.Bump(false, e), e, Op(DECR));
  }

  lemma EmitAppend(h: Host, x: Name, v: Expr, before: seq<Byte>)
    ensures before + Emit(h, v) + [ADD_ELEM] + TokenBytes(x) == before + Emit(h, AddElem(x, v))
  {
    EmitAfter(h, AddElem(x, v), v, Tok(ADD_ELEM, x));
    hide Emit, TokenBytes;
    assert before + Emit(h, v) + [ADD_ELEM] + TokenBytes(x) == before + (Emit(h, v) + ([ADD_ELEM] + TokenBytes(x)));
  }

  lemma EmitAccess(h: Host, x: Name, i: Expr, before: seq<Byte>)
    ensures before + Emit(h, i) + [ACCESS] + TokenBytes(x) == before + Emit(h, Access(x, i))
  {
    EmitAfter(h, Access(x, i), i, Tok(ACCESS, x));
    hide Emit, TokenBytes;
    assert before + Emit(h, i) + [ACCESS] + TokenBytes(x) == before + (Emit(h, i) + ([ACCESS] + TokenBytes(x)));
  }

  lemma EmitStore(h: Host, x: Name, i: Expr, v: Expr, before: seq<Byte>)
    ensures before + Emit(h, i) + Emit(h, v) + [SET_ELEM] + TokenBytes(x) == before + Emit(h, SetElem(x, i, v))
  {
    EmitPair(h, SetElem(x, i, v), i, v, Tok(SET_ELEM, x));
    hide Emit, TokenBytes;
    assert before + Emit(h, i) + Emit(h, v) + [SET_ELEM] + TokenBytes(x) ==
           before + (Emit(h, i) + Emit(h, v) + ([SET_ELEM] + TokenBytes(x)));
  }

  lemma EmitLeaves(h: Host, t: seq<Byte>)
    ensures Emit(h, Number(t)) == [AS_DOUBLE] + h.strtod(t)
    ensures Emit(h, Quoted(t)) == [AS_STRING] + TextBytes(t)
    ensures Emit(h, Ref(t)) == [AS_VAR] + TokenBytes(t)
    ensures Emit(h, Void) == [AS_VOID] && Emit(h, Microtime) == [MICROTIME] && EmitArgs(h, []) == []
  {
    FlattenOne(Dbl(h.strtod(t)));
    FlattenOne(Text(AS_STRING, t));
    FlattenOne(Tok(AS_VAR, t));
    FlattenOne(Op(AS_VOID));
    FlattenOne(Op(MICROTIME));
  }

  lemma {:induction false} EmitArgsMore(h: Host, args: seq<Expr>, a: Expr)
    ensures EmitArgs(h, args + [a]) == EmitArgs(h, args) + Emit(h, a)
  {
    hide Compile;
    CompileArgsMore(h, args, a);
    FlattenConcat(CompileArgs(h, args), Compile(h, a));
  }

  lemma {:induction false} CompileArgsMore(h: Host, args: seq<Expr>, a: Expr)
    ensures CompileArgs(h, args + [a]) == CompileArgs(h, args) + Compile(h, a)
    decreases |args|
  {
    hide Compile;
    if args == [] {
      assert (args + [a])[1..] == [];
      assert CompileArgs(h, args + [a]) == Compile(h, a) + CompileArgs(h, []);
    } else {
      assert (args + [a])[1..] == args[1..] + [a];
      CompileArgsMore(h, args[1..], a);
    }
  }

  lemma EmitCall(h: Host, f: Name, args: seq<Expr>)
    ensures Emit(h, Call(f, args)) ==
            EmitArgs(h, args) + (if |args| > 0 then [REVERSE_STACK] else []) + [|args| % 256] + [CALL] + TokenBytes(f)
  {
    hide CompileArgs, Flatten, TokenBytes;
    var ins := CompileArgs(h, args);
    var i := if |args| > 0 then Rev(|args| % 256) else Op(IDLE);
    assert Compile(h, Call(f, args)) == ins + [i] + [Tok(CALL, f)];
    EmitThen(ins, i);
    EmitThen(ins + [i], Tok(CALL, f));
  }

  lemma EmitForeign(h: Host, lib: Name, fn: Name, args: seq<Expr>)
    ensures Emit(h, Foreign(lib, fn, args)) ==
            EmitArgs(h, args) + [XCALL] + TokenBytes(lib) + TokenBytes(fn) + [|args| % 256]
  {
    hide CompileArgs, Flatten, TokenBytes;
    var i := Xcall(lib, fn, |args| % 256);
    assert Compile(h, Foreign(lib, fn, args)) == CompileArgs(h, args) + [i];
    EmitThen(CompileArgs(h, args), i);
  }

  /** Arguments already read, in front of what the rest of the list makes. */
  function Before(args: seq<Expr>, r: Parsed<seq<Expr>>): (p: Parsed<seq<Expr>>) {
    if r.Good? then Good(args + r.value, r.pos) else Bad
  }

  lemma BeforeNone(r: Parsed<seq<Expr>>)
    ensures Before([], r) == r
  {
    if r.Good? { assert [] + r.value == r.value; }
  }

  lemma BeforeMore(args: seq<Expr>, e: Expr, r: Parsed<seq<Expr>>)
    ensures Before(args, Before([e], r)) == Before(args + [e], r)
  {
    if r.Good? { assert args + ([e] + r.value) == args + [e] + r.value; }
  }

  lemma ArgumentsUnfold(s: Input, pos: nat, n: nat)
    requires pos < |s|
    ensures s[pos] == CLOSE ==> Arguments(s, pos, n) == Good([], pos)
    ensures s[pos] != CLOSE && n >= MAX_ARGUMENTS ==> Arguments(s, pos, n).Bad?
    ensures s[pos] != CLOSE && n < MAX_ARGUMENTS ==>
              var a := Sum(s, pos);
              if a.Bad? then Arguments(s, pos, n).Bad?
              else if s[a.pos] == CLOSE then Arguments(s, pos, n) == Good([a.value], a.pos)
              else if s[a.pos] != COMMA then Arguments(s, pos, n).Bad?
              else Arguments(s, pos, n) == Before([a.value], Arguments(s, Spaces(s, a.pos + 1), n + 1))
  {
    hide Sum;
  }

  class Reader {
    const host: Host
    const str: Input
    var pos: nat
    var code: seq<Byte>

    constructor (host: Host, text: seq<Byte>, code: seq<Byte>)
      ensures str == text + [0] && pos == 0 && this.code == code && this.host == host
    {
      this.host := host;
      this.str := text + [0];
      this.pos := 0;
      this.code := code;
    }

    /** The position is still readable. */
    predicate Valid()
      reads this
    {
      pos < |str|
    }

    /** The reader has done what the grammar says: same verdict, same end, and the tree's code appended. */
    ghost predicate Did(ok: bool, r: Parsed<Expr>, before: seq<Byte>)
      reads this
    {
      ok == r.Good? && (ok ==> pos == r.pos < |str| && code == before + Emit(host, r.value))
    }

    // ----- emitting -----

    method AddCmd(b: Byte)
      modifies this`code
      ensures code == old(code) + [b]
    {
      code := code + [b];
    }

    method AddToken(t: Name)
      modifies this`code
      ensures code == old(code) + TokenBytes(t)
    {
      code := code + [|t| % 256] + t;
    }

    method AddString(t: seq<Byte>)
      modifies this`code
      ensures code == old(code) + TextBytes(t)
    {
      var size := |t| % 65536;
      code := code + [size % 256, size / 256] + t[..size];
    }

    // ----- characters -----

    method EatWhitespace()
      requires Valid()
      modifies this`pos
      ensures Valid() && pos == Spaces(str, old(pos))
    {
      while IsSpace(str[pos])
        invariant Valid() && Spaces(str, pos) == Spaces(str, old(pos))
        decreases |str| - pos
      {
        pos := pos + 1;
      }
    }

    /** Copies digits into the token that is being collected since start. */
    method EatDigits(token: seq<Byte>, ghost start: nat) returns (t: seq<Byte>)
      requires Valid() && start <= pos && token == str[start..pos]
      modifies this`pos
      ensures Valid() && pos == Digits(str, old(pos)) && t == str[start..pos]
    {
      t := token;
      while IsDigit(str[pos])
        invariant Valid() && start <= pos && Digits(str, pos) == Digits(str, old(pos))
        invariant t == str[start..pos]
        decreases |str| - pos
      {
        t := t + [str[pos]];
        pos := pos + 1;
      }
    }

    method EatIf(present: bool, token: seq<Byte>, ghost start: nat) returns (t: seq<Byte>)
      requires Valid() && start <= pos && token == str[start..pos] && (present ==> str[pos] != 0)
      modifies this`pos
      ensures Valid() && pos == Optional(str, old(pos), present) && t == str[start..pos]
    {
      t := token;
      if present {
        t := t + [str[pos]];
        pos := pos + 1;
      }
    }

    method EatWord() returns (t: Name)
      requires Valid()
      modifies this`pos
      ensures Valid() && pos == Word(str, old(pos)) && t == str[old(pos)..pos]
    {
      t := [];
      while IsWord(str[pos])
        invariant Valid() && old(pos) <= pos && Word(str, pos) == Word(str, old(pos))
        invariant t == str[old(pos)..pos]
        decreases |str| - pos
      {
        t := t + [str[pos]];
        pos := pos + 1;
      }
    }

    // ----- parser_read_double -----

    method ReadString() returns (ok: bool)
      requires Valid() && str[pos] == QUOTE
      modifies this
      ensures Did(ok, Literal(str, old(pos)), old(code))
    {
      hide Emit, Compile, NumberEnd, Spaces, TextBytes;
      pos := pos + 1;
      var token := [];
      ghost var start := pos;
      while str[pos] != QUOTE
        invariant Valid() && start <= pos && token == str[start..pos]
        invariant Closing(str, pos) == Closing(str, start)
        invariant code == old(code)
        decreases |str| - pos
      {
        token := token + [str[pos]];
        pos := pos + 1;
        if pos >= |str| {
          return false;
        }
      }
      AddCmd(AS_STRING);
      AddString(token);
      pos := pos + 1;
      EmitLeaves(host, token);
      return true;
    }

    method EatNumber() returns (token: seq<Byte>)
      requires Valid()
      modifies this`pos
      ensures Valid() && pos == NumberEnd(str, old(pos)) && token == str[old(pos)..pos]
    {
      ghost var start := pos;
      token := EatIf(IsSign(str[pos]), [], start);
      token := EatDigits(token, start);
      token := EatIf(str[pos] == DOT, token, start);
      token := EatDigits(token, start);
      if str[pos] == 101 || str[pos] == 69 {
        token := EatIf(true, token, start);
        token := EatIf(IsSign(str[pos]), token, start);
      }
      token := EatDigits(token, start);
    }

    method ReadDouble() returns (ok: bool)
      requires Valid()
      modifies this
      ensures Did(ok, Literal(str, old(pos)), old(code))
    {
      hide Emit, Compile, NumberEnd, Closing, Flatten;
      if str[pos] == QUOTE {
        ok := ReadString();
        return;
      }
      var token := EatNumber();
      EatWhitespace();
      if |token| == 0 {
        return false;
      }
      AddCmd(AS_DOUBLE);
      code := code + host.strtod(token);
      EmitLeaves(host, token);
      return true;
    }

    // ----- argument lists -----

    method ReadArgument() returns (ok: bool)
      requires Valid()
      modifies this
      ensures Did(ok, Argument(str, old(pos)), old(code))
      decreases |str| - pos, 11
    {
      hide Emit, EmitArgs, FewArgs, FewArgsAll, Sum;
      EatWhitespace();
      ok := ReadSum();
      if !ok {
        return;
      }
      if str[pos] == COMMA {
        pos := pos + 1;
      }
      EatWhitespace();
    }

    method ReadArguments() returns (ok: bool, count: nat)
      requires Valid()
      modifies this
      ensures ok == Arguments(str, old(pos), 0).Good?
      ensures ok ==> var r := Arguments(str, old(pos), 0);
                     pos == r.pos < |str| && count == |r.value| && code == old(code) + EmitArgs(host, r.value)
      decreases |str| - pos, 11
    {
      hide Emit, EmitArgs, FewArgs, FewArgsAll, Sum, Arguments;
      count := 0;
      ghost var args: seq<Expr> := [];
      ghost var start, before := pos, code;
      EmitLeaves(host, []);
      BeforeNone(Arguments(str, start, 0));
      while str[pos] != CLOSE
        invariant Valid() && start <= pos && count == |args| <= MAX_ARGUMENTS && code == before + EmitArgs(host, args)
        invariant Arguments(str, start, 0) == Before(args, Arguments(str, pos, count))
        decreases |str| - pos
      {
        ArgumentsUnfold(str, pos, count);
        if count >= MAX_ARGUMENTS {
          return false, count;
        }
        ghost var p := pos;
        ok := ReadSum();
        if !ok {
          return;
        }
        ghost var e := Sum(str, p).value;
        EmitArgsMore(host, args, e);
        assert code == before + EmitArgs(host, args + [e]);
        count := count + 1;
        if str[pos] == CLOSE {
          return true, count;
        } else if str[pos] == COMMA {
          pos := pos + 1;
          EatWhitespace();
          BeforeMore(args, e, Arguments(str, pos, count));
          args := args + [e];
        } else {
          return false, count;
        }
      }
      ArgumentsUnfold(str, pos, count);
      assert args + [] == args;
      return true, count;
    }

    method ReadClosed(ghost e: Expr, ghost before: seq<Byte>) returns (ok: bool)
      requires Valid() && code == before + Emit(host, e)
      modifies this`pos
      ensures Did(ok, Closed(str, old(pos), e), before)
    {
      if str[pos] != CLOSE {
        return false;
      }
      pos := pos + 1;
      EatWhitespace();
      return true;
    }

    // ----- parser_read_builtin -----

    method ReadCalled(name: Name) returns (ok: bool)
      requires Valid()
      modifies this
      ensures Did(ok, Called(str, old(pos), name), old(code))
      decreases |str| - pos, 12
    {
      hide Emit, EmitArgs, FewArgs, FewArgsAll, Arguments, Disjunction, Closed;
      ghost var start, before := pos, code;
      ghost var e: Expr;
      if name == PRINT_NAME {
        ok := ReadDisjunction();
        if !ok {
          return;
        }
        AddCmd(PRINT);
        ghost var a := Disjunction(str, start).value;
        e := Print(a);
        EmitPrefix(host, a, before);
      } else if name == MICROTIME_NAME {
        AddCmd(MICROTIME);
        e := Microtime;
        EmitLeaves(host, name);
      } else {
        EatWhitespace();
        ghost var p := pos;
        var count;
        ok, count := ReadArguments();
        if !ok {
          return;
        }
        if count > 0 {
          AddCmd(REVERSE_STACK);
        }
        AddCmd(count % 256);
        AddCmd(CALL);
        AddToken(name);
        ghost var args := Arguments(str, p, 0).value;
        e := Call(name, args);
        EmitCall(host, name, args);
      }
      ok := ReadClosed(e, before);
    }

    method ReadIndexed(name: Name) returns (ok: bool)
      requires Valid()
      modifies this
      ensures Did(ok, Indexed(str, old(pos), name), old(code))
      decreases |str| - pos, 12
    {
      hide Emit, EmitArgs, FewArgs, FewArgsAll, Argument, Sum;
      ghost var before := code;
      ghost var start := pos;
      if str[pos] == CLOSE_SQUARE {
        pos := pos + 1;
        EatWhitespace();
        if str[pos] != EQUALS {
          return false;
        }
        pos := pos + 1;
        ghost var p := pos;
        ok := ReadArgument();
        if !ok {
          return;
        }
        AddCmd(ADD_ELEM);
        AddToken(name);
        ghost var v := Argument(str, p).value;
        EmitAppend(host, name, v, before);
        return true;
      }
      ok := ReadSum();
      if !ok {
        return;
      }
      ghost var i := Sum(str, start).value;
      if str[pos] != CLOSE_SQUARE {
        return false;
      }
      pos := pos + 1;
      EatWhitespace();
      if str[pos] == EQUALS {
        pos := pos + 1;
        ghost var p := pos;
        ok := ReadArgument();
        if !ok {
          return;
        }
        AddCmd(SET_ELEM);
        ghost var v := Argument(str, p).value;
        EmitStore(host, name, i, v, before);
      } else {
        AddCmd(ACCESS);
        EmitAccess(host, name, i, before);
      }
      AddToken(name);
      return true;
    }

    method ReadImported(lib: Name) returns (ok: bool)
      requires Valid()
      modifies this
      ensures Did(ok, Imported(str, old(pos), lib), old(code))
      decreases |str| - pos, 12
    {
      hide Emit, EmitArgs, FewArgs, FewArgsAll, Arguments, Closed, TokenBytes;
      ghost var before := code;
      if str[pos] != COLON {
        return false;
      }
      pos := pos + 1;
      var name := EatWord();
      if str[pos] != OPEN {
        return false;
      }
      pos := pos + 1;
      EatWhitespace();
      ghost var p := pos;
      var count;
      ok, count := ReadArguments();
      if !ok {
        return;
      }
      AddCmd(XCALL);
      AddToken(lib);
      AddToken(name);
      AddCmd(count % 256);
      ghost var args := Arguments(str, p, 0).value;
      EmitForeign(host, lib, name, args);
      ok := ReadClosed(Foreign(lib, name, args), before);
    }

    method ReadAtom() returns (ok: bool)
      requires Valid()
      modifies this
      ensures Did(ok, Atom(str, old(pos)), old(code))
      decreases |str| - pos, 1
    {
      hide Emit, EmitArgs, FewArgs, FewArgsAll, Called, Indexed, Imported, Literal;
      if IsAlpha(str[pos]) || str[pos] == UNDERSCORE {
        var name := EatWord();
        if str[pos] == OPEN {
          pos := pos + 1;
          ok := ReadCalled(name);
        } else if str[pos] == OPEN_SQUARE {
          pos := pos + 1;
          ok := ReadIndexed(name);
        } else if str[pos] == COLON {
          pos := pos + 1;
          ok := ReadImported(name);
        } else {
          if name == [UNDERSCORE] {
            AddCmd(AS_VOID);
            EmitLeaves(host, name);
          } else {
            AddCmd(AS_VAR);
            AddToken(name);
            EmitLeaves(host, name);
          }
          EatWhitespace();
          ok := true;
        }
      } else {
        ok := ReadDouble();
        if !ok {
          return;
        }
        EatWhitespace();
      }
    }

    // ----- the layers of the grammar -----

    method ReadParen() returns (ok: bool)
      requires Valid()
      modifies this
      ensures Did(ok, Paren(str, old(pos)), old(code))
      decreases |str| - pos, 2
    {
      hide Emit, EmitArgs, FewArgs, FewArgsAll, Atom, Disjunction, Closed;
      if str[pos] == OPEN {
        ghost var before := code;
        pos := pos + 1;
        EatWhitespace();
        ghost var p := pos;
        ok := ReadDisjunction();
        if !ok {
          return;
        }
        ok := ReadClosed(Disjunction(str, p).value, before);
      } else {
        ok := ReadAtom();
      }
    }

    method ReadUnary() returns (ok: bool)
      requires Valid()
      modifies this
      ensures Did(ok, Unary(str, old(pos)), old(code))
      decreases |str| - pos, 3
    {
      hide Emit, EmitArgs, FewArgs, FewArgsAll, Paren, Product;
      ghost var before := code;
      var c := str[pos];
      if c == BANG {
        pos := pos + 1;
        EatWhitespace();
        ghost var p := pos;
        ok := ReadParen();
        if !ok {
          return;
        }
        AddCmd(INVERT);
        ghost var e := Paren(str, p).value;
        EmitPrefix(host, e, before);
      } else if IsSign(c) {
        pos := pos + 1;
        EatWhitespace();
        ghost var p := pos;
        ok := ReadProduct();
        if !ok {
          return;
        }
        AddCmd(if c == PLUS then INCR else DECR);
        ghost var e := Product(str, p).value;
        EmitPrefix(host, e, before);
      } else {
        ok := ReadParen();
      }
    }

    method ReadPower() returns (ok: bool)
      requires Valid()
      modifies this
      ensures Did(ok, Power(str, old(pos)), old(code))
      decreases |str| - pos, 4
    {
      hide Emit, EmitArgs, FewArgs, FewArgsAll, Unary;
      ghost var start, before := pos, code;
      ok := ReadUnary();
      if !ok {
        return;
      }
      ghost var l := Unary(str, start).value;
      while str[pos] == CARET
        invariant Valid() && start < pos && code == before + Emit(host, l)
        invariant Power(str, start) == PowerRest(str, pos, l)
        decreases |str| - pos
      {
        pos := pos + 1;
        EatWhitespace();
        if str[pos] == DASH {
          return false;
        }
        ghost var p := pos;
        ok := ReadPower();
        if !ok {
          return;
        }
        AddCmd(POW);
        ghost var r := Power(str, p).value;
        EmitBin(host, Pow, l, r, before);
        l := Bin(Pow, l, r);
      }
      ok := true;
    }

    method ReadProduct() returns (ok: bool)
      requires Valid()
      modifies this
      ensures Did(ok, Product(str, old(pos)), old(code))
      decreases |str| - pos, 5
    {
      hide Emit, EmitArgs, FewArgs, FewArgsAll, Power;
      ghost var start, before := pos, code;
      ok := ReadPower();
      if !ok {
        return;
      }
      ghost var l := Power(str, start).value;
      while str[pos] == STAR || str[pos] == SLASH || str[pos] == PERCENT
        invariant Valid() && start < pos && code == before + Emit(host, l)
        invariant Product(str, start) == ProductRest(str, pos, l)
        decreases |str| - pos
      {
        var c := str[pos];
        pos := pos + 1;
        EatWhitespace();
        ghost var p := pos;
        ok := ReadPower();
        if !ok {
          return;
        }
        AddCmd(if c == STAR then MUL else if c == SLASH then DIV else MOD);
        ghost var r, op := Power(str, p).value, ProductOp(c).value;
        EmitBin(host, op, l, r, before);
        l := Bin(op, l, r);
      }
      ok := true;
    }

    method ReadSum() returns (ok: bool)
      requires Valid()
      modifies this
      ensures Did(ok, Sum(str, old(pos)), old(code))
      decreases |str| - pos, 6
    {
      hide Emit, EmitArgs, FewArgs, FewArgsAll, Product;
      ghost var start, before := pos, code;
      var c := str[pos];
      ghost var l: Expr;
      if IsSign(c) {
        pos := pos + 1;
        EatWhitespace();
        ghost var p := pos;
        var negate := c == DASH && str[pos] != DASH;
        ok := ReadProduct();
        if !ok {
          return;
        }
        l := Product(str, p).value;
        if negate {
          AddCmd(UNARY_MINUS);
          EmitPrefix(host, l, before);
          l := Minus(l);
        }
      } else {
        ok := ReadProduct();
        if !ok {
          return;
        }
        l := Product(str, start).value;
      }
      ok := ReadSumRest(l, start, before);
    }

    /** The loop of parser_read_expr. */
    method ReadSumRest(ghost first: Expr, ghost start: nat, ghost before: seq<Byte>) returns (ok: bool)
      requires Valid() && start < pos && code == before + Emit(host, first)
      modifies this
      ensures Did(ok, SumRest(str, old(pos), first), before)
      decreases |str| - pos, 6
    {
      hide Emit, EmitArgs, FewArgs, FewArgsAll, Product;
      ghost var l := first;
      ghost var p0 := pos;
      while IsSign(str[pos])
        invariant Valid() && p0 <= pos && code == before + Emit(host, l)
        invariant SumRest(str, p0, first) == SumRest(str, pos, l)
        decreases |str| - pos
      {
        var c := str[pos];
        pos := pos + 1;
        EatWhitespace();
        ghost var p := pos;
        ok := ReadProduct();
        if !ok {
          return;
        }
        AddCmd(if c == PLUS then ADD else SUB);
        ghost var r, op := Product(str, p).value, if c == PLUS then Add else Sub;
        EmitBin(host, op, l, r, before);
        l := Bin(op, l, r);
      }
      ok := true;
    }

    method ReadComparison() returns (ok: bool)
      requires Valid()
      modifies this
      ensures Did(ok, Comparison(str, old(pos)), old(code))
      decreases |str| - pos, 7
    {
      hide Emit, EmitArgs, FewArgs, FewArgsAll, Sum;
      ghost var before := code;
      EatWhitespace();
      ghost var start := pos;
      ok := ReadSum();
      if !ok {
        return;
      }
      ghost var l := Sum(str, start).value;
      var c := str[pos];
      if c == LESS_THAN || c == MORE_THAN {
        pos := pos + 1;
        var equal := str[pos] == EQUALS;
        if equal {
          pos := pos + 1;
        }
        EatWhitespace();
        ghost var p := pos;
        ok := ReadSum();
        if !ok {
          return;
        }
        if c == LESS_THAN {
          AddCmd(if equal then LESS_EQ else LESS);
        } else {
          AddCmd(if equal then MORE_EQ else MORE);
        }
        ghost var r, op := Sum(str, p).value, CompareOp(c == LESS_THAN, equal);
        EmitBin(host, op, l, r, before);
      }
    }

    method ReadEquality() returns (ok: bool)
      requires Valid()
      modifies this
      ensures Did(ok, Equality(str, old(pos)), old(code))
      decreases |str| - pos, 8
    {
      hide Emit, EmitArgs, FewArgs, FewArgsAll, Comparison;
      ghost var before := code;
      EatWhitespace();
      ghost var start := pos;
      ok := ReadComparison();
      if !ok {
        return;
      }
      ghost var l := Comparison(str, start).value;
      var c := str[pos];
      if c == EQUALS || (c == BANG && str[pos + 1] == EQUALS) {
        pos := pos + 1;
        var double := str[pos] == EQUALS;
        if double {
          pos := pos + 1;
        }
        EatWhitespace();
        ghost var p := pos;
        ok := ReadComparison();
        if !ok {
          return;
        }
        ghost var r := Comparison(str, p).value;
        if c == BANG {
          AddCmd(CMP_NOT);
          EmitBin(host, Ne, l, r, before);
        } else if double {
          AddCmd(CMP);
          EmitBin(host, Eq, l, r, before);
        } else {
          AddCmd(SET);
          EmitAssign(host, l, r, before);
        }
      }
    }

    method ReadConjunction() returns (ok: bool)
      requires Valid()
      modifies this
      ensures Did(ok, Conjunction(str, old(pos)), old(code))
      decreases |str| - pos, 9
    {
      hide Emit, EmitArgs, FewArgs, FewArgsAll, Equality;
      ghost var start, before := pos, code;
      ok := ReadEquality();
      if !ok {
        return;
      }
      ghost var l := Equality(str, start).value;
      while str[pos] == AMPERSAND
        invariant Valid() && start < pos && code == before + Emit(host, l)
        invariant Conjunction(str, start) == ConjunctionRest(str, pos, l)
        decreases |str| - pos
      {
        pos := pos + 1;
        if str[pos] != AMPERSAND {
          return false;
        }
        pos := pos + 1;
        EatWhitespace();
        ghost var p := pos;
        ok := ReadEquality();
        if !ok {
          return;
        }
        AddCmd(AND);
        ghost var r := Equality(str, p).value;
        EmitBin(host, And, l, r, before);
        l := Bin(And, l, r);
      }
      ok := true;
    }

    method ReadDisjunction() returns (ok: bool)
      requires Valid()
      modifies this
      ensures Did(ok, Disjunction(str, old(pos)), old(code))
      decreases |str| - pos, 10
    {
      hide Emit, EmitArgs, FewArgs, FewArgsAll, Conjunction;
      ghost var start, before := pos, code;
      ok := ReadConjunction();
      if !ok {
        return;
      }
      ghost var l := Conjunction(str, start).value;
      while str[pos] == PIPE
        invariant Valid() && start < pos && code == before + Emit(host, l)
        invariant Disjunction(str, start) == DisjunctionRest(str, pos, l)
        decreases |str| - pos
      {
        pos := pos + 1;
        if str[pos] != PIPE {
          return false;
        }
        pos := pos + 1;
        EatWhitespace();
        ghost var p := pos;
        ok := ReadConjunction();
        if !ok {
          return;
        }
        AddCmd(OR);
        ghost var r := Conjunction(str, p).value;
        EmitBin(host, Or, l, r, before);
        l := Bin(Or, l, r);
      }
      ok := true;
    }

    /** parser_parse */
    method ParseAll() returns (ok: bool)
      requires pos == 0
      modifies this
      ensures ok == Parse(str[..|str| - 1]).Some?
      ensures ok ==> code == old(code) + Emit(host, Parse(str[..|str| - 1]).value)
    {
      assert str[..|str| - 1] + [0] == str;
      ok := ReadDisjunction();
      if !ok {
        return;
      }
      EatWhitespace();
      ok := pos >= |str| - 1;
    }
  }

  /** parse_expression: reads a text in one pass and appends its code. An empty text emits nothing. */
  method ParseExpression(h: Host, text: seq<Byte>, code: seq<Byte>) returns (ok: bool, r: seq<Byte>)
    ensures text == [] || text[0] == 0 ==> ok && r == code
    ensures text != [] && text[0] != 0 ==> ok == Parse(text).Some?
    ensures text != [] && text[0] != 0 && ok ==> r == code + Emit(h, Parse(text).value)
  {
    if |text| == 0 || text[0] == 0 {
      return true, code;
    }
    var pd := new Reader(h, text, code);
    assert pd.str[..|pd.str| - 1] == text;
    ok := pd.ParseAll();
    r := pd.code;
  }
}
