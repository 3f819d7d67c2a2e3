/** core/larva.c in its own form: a reader that walks over the source text and appends byte code. */
module Larva {
  import opened Bytes
  import opened Bytecode
  import opened Values
  import opened Syntax
  import opened Grammar
  import opened Digest
  import opened Parser

  lemma EmptyFlat()
    ensures Flatten([]) == []
  {
  }

  class Digester {
    const host: Host
    const code: Input
    var codePos: nat
    var bytecode: seq<Byte>
    var fault: Option<Fault>

    constructor (host: Host, text: seq<Byte>)
      ensures this.host == host && code == text + [NUL] && codePos == 0 && bytecode == [] && fault.None?
    {
      this.host := host;
      code := text + [NUL];
      codePos, bytecode, fault := 0, [], None;
    }

    /** Either both stopped for the same reason, or the instructions were appended and the position is the same. */
    ghost predicate Did(r: Read<seq<Instr>>, before: seq<Byte>)
      reads this
    {
      match r
      case Stop(f) => fault == Some(f)
      case Upto(ins, p) => fault.None? && codePos == p && bytecode == before + Flatten(ins)
    }

    method AddCmd(op: Byte)
      modifies this`bytecode
      ensures bytecode == old(bytecode) + Flatten([Op(op)])
    {
      FlattenOne(Op(op));
      bytecode := bytecode + [op];
    }

    /** An opcode and its token. */
    method AddToken(op: Byte, t: Name)
      modifies this`bytecode
      ensures bytecode == old(bytecode) + Flatten([Tok(op, t)])
    {
      FlattenOne(Tok(op, t));
      bytecode := bytecode + [op];
      bytecode := bytecode + [|t| % 256] + t;
    }

    method Fail(f: Fault)
      modifies this`fault
      ensures fault == Some(f)
    {
      fault := Some(f);
    }

    /** larva_read_token */
    method LarvaReadToken() returns (token: Name)
      requires fault.None?
      modifies this`codePos, this`fault
      ensures match ReadToken(code, old(codePos))
              case Stop(f) => fault == Some(f)
              case Upto(t, p) => fault.None? && token == t && codePos == p
    {
      token := [];
      if codePos >= |code| {
        Fail(Undefined);
        return;
      }
      while IsSpace(code[codePos])
        modifies this`codePos
        invariant codePos < |code| && Spaces(code, codePos) == Spaces(code, old(codePos))
        decreases |code| - codePos
      {
        codePos := codePos + 1;
      }
      var tokenPos, start := 0, codePos;
      ghost var end := TokenEnd(code, start + 1);
      codePos := codePos + 1;
      while codePos < |code|
        invariant start < codePos <= |code| && tokenPos == codePos - start - 1 < MAX_TOKEN
        invariant TokenEnd(code, codePos) == end && fault.None?
        decreases |code| - codePos
      {
        tokenPos := tokenPos + 1;
        if tokenPos == MAX_TOKEN {
          assert end >= codePos;
          Fail(RuntimeError);
          return;
        }
        if Delimits(code[codePos]) {
          token := code[start..start + tokenPos];
          return;
        }
        codePos := codePos + 1;
      }
      token := code[start..start + tokenPos];
    }

    /** parse_expression on code[start..codePos] */
    method ParseBetween(start: nat)
      requires start <= codePos <= |code| && fault.None? && (start < codePos ==> code[start] != NUL)
      modifies this`bytecode, this`fault
      ensures Did(ExprAt(host, code, start, codePos), old(bytecode))
    {
      hide Grammar.Parse, Compile, Flatten;
      var ok, r := ParseExpression(host, code[start..codePos], bytecode);
      EmptyFlat();
      if !ok {
        Fail(RuntimeError);
        return;
      }
      bytecode := r;
    }

    /** parse: finds the end of the expression, then compiles it. */
    method Parse()
      requires fault.None? && codePos <= |code|
      modifies this`codePos, this`bytecode, this`fault
      ensures Did(ExprAt(host, code, old(codePos), ExprEnd(code, old(codePos), false, 0)), old(bytecode))
    {
      hide ExprAt, Flatten;
      var quoteOpened, brLevel, expressionStart := false, 0, codePos;
      ghost var end := ExprEnd(code, codePos, false, 0);
      while codePos < |code|
        modifies this`codePos
        invariant expressionStart <= codePos <= |code| && brLevel >= 0 && codePos <= end
        invariant end == ExprEnd(code, codePos, quoteOpened, brLevel)
        invariant expressionStart < codePos ==> code[expressionStart] != NUL
        decreases |code| - codePos
      {
        if code[codePos] == NUL {
          break;
        }
        if !quoteOpened {
          if code[codePos] == NEWLINE {
            break;
          } else if code[codePos] == OPEN {
            brLevel := brLevel + 1;
          } else if code[codePos] == CLOSE {
            brLevel := brLevel - 1;
          } else if code[codePos] == COMMA && brLevel == 0 {
            break;
          }
        }
        if brLevel < 0 {
          break;
        }
        if code[codePos] == QUOTE {
          quoteOpened := !quoteOpened;
        }
        codePos := codePos + 1;
      }
      assert codePos == end;
      ParseBetween(expressionStart);
    }

    /** The condition of if and while, with its parentheses. */
    method ParseCondition()
      requires fault.None? && codePos < |code|
      modifies this`codePos, this`bytecode, this`fault
      ensures Did(ExprAt(host, code, old(codePos), CondEnd(code, old(codePos), 0)), old(bytecode))
    {
      hide ExprAt, Flatten;
      var exprStart := codePos;
      var level: int := 0;
      ghost var end := CondEnd(code, codePos, 0);
      while code[codePos] != NUL
        modifies this`codePos
        invariant exprStart <= codePos < |code| && codePos <= end && level >= 0
        invariant end == CondEnd(code, codePos, level)
        invariant exprStart < codePos ==> code[exprStart] != NUL
        decreases |code| - codePos
      {
        if code[codePos] == OPEN {
          level := Wrapped(level + 1);
        } else if code[codePos] == CLOSE {
          level := Wrapped(level - 1);
          if level < 1 {
            codePos := codePos + 1;
            break;
          }
        }
        codePos := codePos + 1;
      }
      ParseBetween(exprStart);
    }

    method SkipBlanks()
      requires codePos < |code|
      modifies this`codePos
      ensures codePos == Blanks(code, old(codePos))
    {
      while code[codePos] == SPACE
        modifies this`codePos
        invariant codePos < |code| && Blanks(code, codePos) == Blanks(code, old(codePos))
        decreases |code| - codePos
      {
        codePos := codePos + 1;
      }
    }

    method SkipJson()
      requires codePos < |code|
      modifies this`codePos
      ensures codePos == JsonEnd(code, old(codePos))
    {
      while code[codePos] != NUL && code[codePos] != NEWLINE && code[codePos] != RETURN_CHAR && code[codePos] != CLOSE
        modifies this`codePos
        invariant codePos < |code| && JsonEnd(code, codePos) == JsonEnd(code, old(codePos))
        decreases |code| - codePos
      {
        codePos := codePos + 1;
      }
    }

    method ReadJson(x: Name)
      requires codePos < |code|
      modifies this`codePos, this`bytecode
      ensures codePos == JsonEnd(code, old(codePos))
      ensures bytecode == old(bytecode) + Flatten([Text(FROM_JSON, code[old(codePos)..codePos]), Tok(VARX, x)])
    {
      hide Flatten, TextBytes;
      var start := codePos;
      SkipJson();
      var json := code[start..codePos];
      bytecode := bytecode + [FROM_JSON];
      bytecode := bytecode + TextBytes(json);
      AddToken(VARX, x);
      EmitText(old(bytecode), FROM_JSON, json, Tok(VARX, x));
    }

    lemma EmitText(before: seq<Byte>, op: Byte, text: seq<Byte>, b: Instr)
      ensures before + [op] + TextBytes(text) + Flatten([b]) == before + Flatten([Text(op, text), b])
    {
      hide TextBytes;
      var a := Text(op, text);
      FlattenOne(a);
      FlattenConcat([a], [b]);
      assert [a] + [b] == [a, b];
      assert before + [op] + TextBytes(text) + Flatten([b]) == before + (([op] + TextBytes(text)) + Flatten([b]));
    }

    /** What stands behind the `=` of a declaration. */
    method ReadInitial(x: Name, isParam: bool)
      requires fault.None? && codePos < |code|
      modifies this`codePos, this`bytecode, this`fault
      ensures Did(Assigned(host, code, old(codePos), x, isParam), old(bytecode))
      ensures fault.None? ==> codePos < |code|
    {
      hide ExprAt, Flatten, ExprEnd;
      var start := codePos;
      if code[codePos] == OPEN_BRACE || code[codePos] == OPEN_SQUARE {
        ReadJson(x);
      } else {
        ExprEndIn(code, start);
        Parse();
        if fault.Some? {
          return;
        }
        ghost var ins := ExprAt(host, code, start, ExprEnd(code, start, false, 0)).value;
        var op := if isParam then PARAMX else VARX;
        AddToken(op, x);
        FlattenConcat(ins, [Tok(op, x)]);
      }
    }

    /** From re_read_var to the test for a comma. */
    method ReadDeclaration(isParam: bool) returns (again: bool)
      requires fault.None?
      modifies this`codePos, this`bytecode, this`fault
      ensures match Declaration(host, code, old(codePos), isParam)
              case Stop(f) => fault == Some(f)
              case Upto(d, p) => fault.None? && again == d.1 && codePos == p && bytecode == old(bytecode) + Flatten(d.0)
    {
      hide Flatten, Assigned, ReadToken, Reserved;
      again := false;
      var token := LarvaReadToken();
      if fault.Some? {
        return;
      }
      if Reserved(token) {
        Fail(RuntimeError);
        return;
      }
      if codePos >= |code| {
        Fail(Undefined);
        return;
      }
      SkipBlanks();
      var c := code[codePos];
      if c == NEWLINE || c == NUL {
        EmptyFlat();
        if token[0] != CLOSE {
          AddToken(if isParam then PARAM else VAR, token);
        }
      } else if c == COMMA {
        AddToken(if isParam then PARAM else VAR, token);
        codePos := codePos + 1;
        again := true;
      } else if c == CLOSE {
        AddToken(PARAM, token);
        codePos := codePos + 1;
      } else if c != EQUALS {
        Fail(RuntimeError);
      } else {
        codePos := codePos + 1;
        SkipBlanks();
        ReadInitial(token, isParam);
        if fault.Some? {
          return;
        }
        again := code[codePos] == COMMA;
        codePos := codePos + 1;
      }
    }

    /** The loop around re_read_var. */
    method ReadDeclarations(isParam: bool)
      requires fault.None?
      modifies this`codePos, this`bytecode, this`fault
      ensures Did(Declarations(host, code, old(codePos), isParam), old(bytecode))
    {
      hide Flatten, Declaration;
      ghost var before, start := bytecode, codePos;
      ghost var done: seq<Instr> := [];
      EmptyFlat();
      JoinedNone(Declarations(host, code, start, isParam));
      var again := true;
      while again
        modifies this`codePos, this`bytecode, this`fault
        invariant fault.None? && bytecode == before + Flatten(done)
        invariant Declarations(host, code, start, isParam) ==
                  if again then Joined(done, Declarations(host, code, codePos, isParam)) else Upto(done, codePos)
        decreases again, |code| - codePos
      {
        ghost var pos, was := codePos, done;
        again := ReadDeclaration(isParam);
        if fault.Some? {
          return;
        }
        ghost var ins := Declaration(host, code, pos, isParam).value.0;
        FlattenConcat(was, ins);
        done := was + ins;
        if again {
          if codePos >= |code| {
            Fail(Undefined);
            return;
          }
          JoinedMore(was, ins, Declarations(host, code, codePos, isParam));
        }
      }
    }

    method ReadReturn()
      requires fault.None? && codePos <= |code|
      modifies this`codePos, this`bytecode, this`fault
      ensures match ExprAt(host, code, old(codePos), ExprEnd(code, old(codePos), false, 0))
              case Stop(f) => fault == Some(f)
              case Upto(ins, p) => fault.None? && codePos == p + 1 &&
                                   bytecode == old(bytecode) + Flatten([Op(CLEAR_STACK)] + ins + [Op(RETURN)])
    {
      hide ExprAt, Flatten, ExprEnd;
      ghost var start := codePos;
      AddCmd(CLEAR_STACK);
      Parse();
      if fault.Some? {
        return;
      }
      AddCmd(RETURN);
      codePos := codePos + 1;
      ghost var ins := ExprAt(host, code, start, ExprEnd(code, start, false, 0)).value;
      FlattenConcat([Op(CLEAR_STACK)], ins);
      FlattenConcat([Op(CLEAR_STACK)] + ins, [Op(RETURN)]);
    }

    method ReadGuard(op: Byte)
      requires fault.None? && codePos < |code|
      modifies this`codePos, this`bytecode, this`fault
      ensures match ExprAt(host, code, old(codePos), CondEnd(code, old(codePos), 0))
              case Stop(f) => fault == Some(f)
              case Upto(ins, p) => fault.None? && codePos == p + 1 &&
                                   bytecode == old(bytecode) + Flatten([Op(op)] + ins + [Op(CEIT)])
    {
      hide ExprAt, Flatten, CondEnd;
      ghost var start := codePos;
      AddCmd(op);
      ParseCondition();
      if fault.Some? {
        return;
      }
      AddCmd(CEIT);
      codePos := codePos + 1;
      ghost var ins := ExprAt(host, code, start, CondEnd(code, start, 0)).value;
      FlattenConcat([Op(op)], ins);
      FlattenConcat([Op(op)] + ins, [Op(CEIT)]);
    }

    /** A block's name and its parameters. */
    method ReadBlock()
      requires fault.None?
      modifies this`codePos, this`bytecode, this`fault
      ensures match BlockHead(host, code, old(codePos))
              case Stop(f) => fault == Some(f)
              case Upto(ins, p) => fault.None? && codePos == p && bytecode == old(bytecode) + Flatten(ins)
    {
      hide Declarations, Flatten, ReadToken;
      var token := LarvaReadToken();
      if fault.Some? {
        return;
      }
      AddToken(BLOCK_DEF, token);
      AddCmd(BLOCK_START);
      ghost var head, start := [Tok(BLOCK_DEF, token), Op(BLOCK_START)], codePos + 1;
      FlattenConcat([Tok(BLOCK_DEF, token)], [Op(BLOCK_START)]);
      assert [Tok(BLOCK_DEF, token)] + [Op(BLOCK_START)] == head;
      if codePos >= |code| {
        Fail(Undefined);
        return;
      }
      if code[codePos] != OPEN {
        codePos := codePos + 1;
        return;
      }
      codePos := codePos + 1;
      ReadDeclarations(true);
      if fault.None? {
        FlattenConcat(head, Declarations(host, code, start, true).value);
      }
    }

    /** One round of the loop, behind the token. */
    method ReadStatement(awaited: bool) returns (next: bool)
      requires fault.None? && codePos < |code| && code[codePos] != NUL
      modifies this`codePos, this`bytecode, this`fault
      ensures match Statement(host, code, old(codePos), awaited)
              case Stop(f) => fault == Some(f)
              case Upto(r, p) => fault.None? && next == r.1 && codePos == p && bytecode == old(bytecode) + Flatten(r.0)
    {
      hide ReadToken, ExprAt, ExprEnd, CondEnd, Flatten, Declarations, BlockHead;
      next := awaited;
      var lineStart := codePos;
      var token := LarvaReadToken();
      EmptyFlat();
      if fault.Some? {
        return;
      }
      if token == [CLOSE_BRACE] {
        AddCmd(BLOCK_END);
        codePos := codePos + 1;
      } else if token == VAR_WORD {
        ReadDeclarations(false);
      } else if token == RETURN_WORD {
        ReadReturn();
      } else if token == BLOCK_WORD {
        next := true;
        ReadBlock();
      } else if token == IF_WORD || token == WHILE_WORD {
        if codePos >= |code| {
          Fail(Undefined);
          return;
        }
        ReadGuard(if token == IF_WORD then IF else WHILE);
      } else if token == ELSE_WORD {
        AddCmd(ELSE);
        codePos := codePos + 1;
      } else if token == [OPEN_BRACE] {
        if !next {
          AddCmd(BLOCK_START);
        }
        next := false;
        codePos := codePos + 1;
      } else if token == USE_WORD {
        var _ := LarvaReadToken();
        codePos := codePos + 1;
      } else {
        codePos := lineStart;
        Parse();
        codePos := codePos + 1;
      }
    }

    /** The loop of larva_init. */
    method LarvaInit()
      requires fault.None?
      modifies this`codePos, this`fault
      ensures fault == Searched(code, 0)
    {
      hide ReadToken, Searched;
      codePos := 0;
      while codePos < |code|
        invariant fault.None? && Searched(code, 0) == Searched(code, codePos)
        decreases |code| - codePos
      {
        SearchedUnfold(code, codePos);
        ghost var pos := codePos;
        var lineStart := codePos;
        if lineStart > 0 && code[lineStart - 1] != RETURN_CHAR && code[lineStart - 1] != NEWLINE {
          codePos := codePos + 1;
        }
        var token := LarvaReadToken();
        if fault.Some? {
          return;
        }
        if token == INCLUDE_WORD {
          Fail(Unmodelled);
          return;
        }
        if token == USE_WORD {
          token := LarvaReadToken();
          if fault.Some? {
            return;
          }
        }
        codePos := codePos + 1;
      }
      SearchedPast(code, codePos);
    }

    /** larva_digest */
    method LarvaDigest()
      requires fault.None? && bytecode == []
      modifies this`codePos, this`bytecode, this`fault
      ensures match Digested(host, code, 0, false)
              case Stop(f) => fault == Some(f)
              case Upto(ins, _) => fault.None? && bytecode == Flatten(ins)
    {
      hide Flatten, Statement;
      codePos := 0;
      var awaited := false;
      ghost var done: seq<Instr> := [];
      EmptyFlat();
      JoinedNone(Digested(host, code, 0, false));
      while true
        modifies this`codePos, this`bytecode, this`fault
        invariant fault.None? && bytecode == Flatten(done)
        invariant Digested(host, code, 0, false) == Joined(done, Digested(host, code, codePos, awaited))
        decreases |code| - codePos
      {
        if codePos >= |code| {
          Fail(Undefined);
          return;
        }
        if code[codePos] == NUL {
          assert done + [] == done;
          return;
        }
        ghost var pos, was, old_awaited := codePos, done, awaited;
        awaited := ReadStatement(awaited);
        if fault.Some? {
          return;
        }
        ghost var ins := Statement(host, code, pos, old_awaited).value.0;
        FlattenConcat(was, ins);
        JoinedMore(was, ins, Digested(host, code, codePos, awaited));
        done := was + ins;
      }
    }
  }
}
