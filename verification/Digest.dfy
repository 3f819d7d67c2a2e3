/** What core/larva.c makes of a source text: the instructions of one statement after the other. */
module Digest {
  import opened Bytes
  import opened Bytecode
  import opened Values
  import opened Syntax
  import opened Grammar

  /** Either what stopped the reading, or a value and the position behind it. */
  datatype Read<+T> = Stop(fault: Fault) | Upto(value: T, pos: nat) {
    predicate IsFailure() {
      Stop?
    }

    function PropagateFailure<U>(): Read<U>
      requires Stop?
    {
      Stop(fault)
    }

    function Extract(): (T, nat)
      requires Upto?
    {
      (value, pos)
    }
  }

  const NEWLINE: Byte := 10
  const RETURN_CHAR: Byte := 13
  const SPACE: Byte := 32
  const OPEN_BRACE: Byte := 123
  const CLOSE_BRACE: Byte := 125

  const VAR_WORD: Name := [118, 97, 114]
  const RETURN_WORD: Name := [114, 101, 116, 117, 114, 110]
  const BLOCK_WORD: Name := [98, 108, 111, 99, 107]
  const IF_WORD: Name := [105, 102]
  const WHILE_WORD: Name := [119, 104, 105, 108, 101]
  const ELSE_WORD: Name := [101, 108, 115, 101]
  const USE_WORD: Name := [117, 115, 101]
  const INCLUDE_WORD: Name := [105, 110, 99, 108, 117, 100, 101]

  const MAX_TOKEN := 256

  predicate Delimits(b: Byte) {
    b == OPEN || b == CLOSE || b == COMMA || b == EQUALS || IsSpace(b) || b == OPEN_BRACE || b == CLOSE_BRACE
  }

  /** Names that `var` refuses. */
  predicate Reserved(t: Name) {
    t == IF_WORD || t == ELSE_WORD || t == VAR_WORD || t == BLOCK_WORD || t == RETURN_WORD || t == WHILE_WORD
  }

  function TokenEnd(c: Input, pos: nat): (r: nat)
    requires pos <= |c|
    ensures pos <= r <= |c|
    decreases |c| - pos
  {
    if pos >= |c| || Delimits(c[pos]) then pos else TokenEnd(c, pos + 1)
  }

  /** larva_read_token: the first character always belongs to the token. Without a delimiter the token
      ends before the zero byte and the position behind it. */
  function ReadToken(c: Input, pos: nat): (r: Read<Name>)
    ensures r.Upto? ==> pos < r.pos <= |c| && |r.value| < MAX_TOKEN && (r.pos < |c| ==> r.value != [])
  {
    if pos >= |c| then Stop(Undefined)
    else
      var start := Spaces(c, pos);
      var end := TokenEnd(c, start + 1);
      var stop := if end < |c| then end else |c| - 1;
      if stop - start >= MAX_TOKEN then Stop(RuntimeError) else Upto(c[start..stop], end)
  }

  /** parse(): up to a newline, a comma or a surplus parenthesis outside quotes. */
  function ExprEnd(c: Input, pos: nat, quoted: bool, level: nat): (r: nat)
    ensures pos <= r && (pos <= |c| ==> r <= |c|)
    decreases |c| - pos
  {
    if pos >= |c| || c[pos] == NUL then pos
    else if !quoted && (c[pos] == NEWLINE || (c[pos] == COMMA && level == 0) ||
                        (c[pos] == CLOSE && level == 0)) then pos
    else
      ExprEnd(c, pos + 1, if c[pos] == QUOTE then !quoted else quoted,
              if quoted then level
              else if c[pos] == OPEN then level + 1 else if c[pos] == CLOSE then level - 1 else level)
  }

  /** A 64-bit unsigned counter. */
  function Wrapped(n: int): (r: nat) {
    n % 0x1_0000_0000_0000_0000
  }

  /** The condition of if and while: up to the parenthesis that brings the counter back to 0, quotes or not. */
  function CondEnd(c: Input, pos: nat, level: nat): (r: nat)
    requires pos < |c|
    ensures pos <= r < |c|
    decreases |c| - pos
  {
    if c[pos] == NUL then pos
    else if c[pos] == OPEN then CondEnd(c, pos + 1, Wrapped(level + 1))
    else if c[pos] == CLOSE then
      if Wrapped(level - 1) < 1 then pos + 1 else CondEnd(c, pos + 1, Wrapped(level - 1))
    else CondEnd(c, pos + 1, level)
  }

  function Blanks(c: Input, pos: nat): (r: nat)
    requires pos < |c|
    ensures pos <= r < |c|
    decreases |c| - pos
  {
    if c[pos] == SPACE then Blanks(c, pos + 1) else pos
  }

  function JsonEnd(c: Input, pos: nat): (r: nat)
    requires pos < |c|
    ensures pos <= r < |c|
    decreases |c| - pos
  {
    if c[pos] == NUL || c[pos] == NEWLINE || c[pos] == RETURN_CHAR || c[pos] == CLOSE then pos else JsonEnd(c, pos + 1)
  }

  /** A JSON text ends in front of the first zero byte, line break or closing parenthesis, whatever its quotes. */
  lemma {:induction false} JsonEndsFirst(c: Input, pos: nat)
    requires pos < |c|
    ensures c[JsonEnd(c, pos)] in {0, 10, 13, 41}
    ensures forall i :: pos <= i < JsonEnd(c, pos) ==> c[i] !in {0, 10, 13, 41}
    decreases |c| - pos
  {
    if c[pos] !in {0, 10, 13, 41} { JsonEndsFirst(c, pos + 1); }
  }

  /** parse_expression on a piece of the text: an empty piece emits nothing. */
  function CodeOf(h: Host, text: seq<Byte>): (r: Option<seq<Instr>>) {
    if text == [] then Some([])
    else
      match Parse(text)
      case None => None
      case Some(e) => Some(Compile(h, e))
  }

  /** An expression from pos on, behind which the reading goes on. */
  function ExprAt(h: Host, c: Input, pos: nat, end: nat): (r: Read<seq<Instr>>)
    requires pos <= end <= |c|
    ensures r.Upto? ==> r.pos == end
  {
    match CodeOf(h, c[pos..end])
    case None => Stop(RuntimeError)
    case Some(ins) => Upto(ins, end)
  }

  /** The value behind `=`: a JSON text, which always defines a variable, or an expression. */
  function Assigned(h: Host, c: Input, pos: nat, x: Name, isParam: bool): (r: Read<seq<Instr>>)
    requires pos < |c|
    ensures r.Upto? ==> pos <= r.pos < |c|
  {
    if c[pos] == OPEN_BRACE || c[pos] == OPEN_SQUARE then
      var end := JsonEnd(c, pos);
      Upto([Text(FROM_JSON, c[pos..end]), Tok(VARX, x)], end)
    else
      ExprEndIn(c, pos);
      var (ins, end) :- ExprAt(h, c, pos, ExprEnd(c, pos, false, 0));
      Upto(ins + [Tok(if isParam then PARAMX else VARX, x)], end)
  }

  lemma ExprEndIn(c: Input, pos: nat)
    requires pos < |c|
    ensures ExprEnd(c, pos, false, 0) < |c|
  {
    ExprEndInside(c, pos, false, 0);
  }

  lemma {:induction false} ExprEndInside(c: Input, pos: nat, quoted: bool, level: nat)
    requires pos < |c|
    ensures ExprEnd(c, pos, quoted, level) < |c|
    decreases |c| - pos
  {
    if c[pos] != NUL && ExprEnd(c, pos, quoted, level) != pos {
      ExprEndInside(c, pos + 1, if c[pos] == QUOTE then !quoted else quoted,
                    if quoted then level
                    else if c[pos] == OPEN then level + 1 else if c[pos] == CLOSE then level - 1 else level);
    }
  }

  /** One declaration, of a variable or of a parameter, and whether a comma announces another one. */
  function Declaration(h: Host, c: Input, pos: nat, isParam: bool): (r: Read<(seq<Instr>, bool)>)
    ensures r.Upto? ==> pos < r.pos
  {
    var (x, p) :- ReadToken(c, pos);
    if Reserved(x) then Stop(RuntimeError)
    else if p >= |c| then Stop(Undefined)
    else
      var q := Blanks(c, p);
      var declare := [Tok(if isParam then PARAM else VAR, x)];
      if c[q] == NEWLINE || c[q] == NUL then Upto((if x[0] == CLOSE then [] else declare, false), q)
      else if c[q] == COMMA then Upto((declare, true), q + 1)
      else if c[q] == CLOSE then Upto(([Tok(PARAM, x)], false), q + 1)
      else if c[q] != EQUALS then Stop(RuntimeError)
      else
        var (define, end) :- Assigned(h, c, Blanks(c, q + 1), x, isParam);
        Upto((define, c[end] == COMMA), end + 1)
  }

  function Declarations(h: Host, c: Input, pos: nat, isParam: bool): (r: Read<seq<Instr>>)
    ensures r.Upto? ==> pos < r.pos
    decreases |c| - pos
  {
    var (one, p) :- Declaration(h, c, pos, isParam);
    if !one.1 then Upto(one.0, p)
    else if p >= |c| then Stop(Undefined)
    else
      var (more, end) :- Declarations(h, c, p, isParam);
      Upto(one.0 + more, end)
  }

  /** What follows the word `block`: a name, and parameters in parentheses. */
  function BlockHead(h: Host, c: Input, pos: nat): (r: Read<seq<Instr>>)
    ensures r.Upto? ==> pos < r.pos
  {
    var (name, q) :- ReadToken(c, pos);
    var ins := [Tok(BLOCK_DEF, name), Op(BLOCK_START)];
    if q >= |c| then Stop(Undefined)
    else if c[q] != OPEN then Upto(ins, q + 1)
    else
      var (params, end) :- Declarations(h, c, q + 1, true);
      Upto(ins + params, end)
  }

  /** The instructions of a statement, and whether the next opening brace has been announced. */
  function Statement(h: Host, c: Input, pos: nat, awaited: bool): (r: Read<(seq<Instr>, bool)>)
    requires pos < |c| && c[pos] != NUL
    ensures r.Upto? ==> pos < r.pos
  {
    var (t, p) :- ReadToken(c, pos);
    if t == [CLOSE_BRACE] then Upto(([Op(BLOCK_END)], awaited), p + 1)
    else if t == VAR_WORD then
      var (ins, q) :- Declarations(h, c, p, false);
      Upto((ins, awaited), q)
    else if t == RETURN_WORD then
      var (ins, q) :- ExprAt(h, c, p, ExprEnd(c, p, false, 0));
      Upto(([Op(CLEAR_STACK)] + ins + [Op(RETURN)], awaited), q + 1)
    else if t == BLOCK_WORD then
      var (ins, q) :- BlockHead(h, c, p);
      Upto((ins, true), q)
    else if t == IF_WORD || t == WHILE_WORD then
      if p >= |c| then Stop(Undefined)
      else
        var (ins, q) :- ExprAt(h, c, p, CondEnd(c, p, 0));
        Upto(([Op(if t == IF_WORD then IF else WHILE)] + ins + [Op(CEIT)], awaited), q + 1)
    else if t == ELSE_WORD then Upto(([Op(ELSE)], awaited), p + 1)
    else if t == [OPEN_BRACE] then Upto((if awaited then [] else [Op(BLOCK_START)], false), p + 1)
    else if t == USE_WORD then
      var (_, q) :- ReadToken(c, p);
      Upto(([], awaited), q + 1)
    else
      var (ins, q) :- ExprAt(h, c, pos, ExprEnd(c, pos, false, 0));
      Upto((ins, awaited), q + 1)
  }

  /** larva_digest, from one round of its loop on. */
  function Digested(h: Host, c: Input, pos: nat, awaited: bool): (r: Read<seq<Instr>>)
    decreases |c| - pos
  {
    if pos >= |c| then Stop(Undefined)
    else if c[pos] == NUL then Upto([], pos)
    else
      var (first, p) :- Statement(h, c, pos, awaited);
      var (more, end) :- Digested(h, c, p, first.1);
      Upto(first.0 + more, end)
  }

  /** The code of a text, or what stops the digestion. */
  function DigestText(h: Host, text: seq<Byte>): (r: Result<seq<Instr>>) {
    match Digested(h, text + [NUL], 0, false)
    case Stop(f) => Err(f)
    case Upto(ins, _) => Ok(ins)
  }

  // ----- the search for include and use -----

  /** larva_init, once the text is clean: token by token; a character that does not start a line is passed over
      first. None if the whole text was searched. Including another file is not modelled. */
  function Searched(c: Input, pos: nat): (r: Option<Fault>)
    decreases |c| - pos
  {
    if pos >= |c| then None
    else
      match ReadToken(c, if StartsLine(c, pos) then pos else pos + 1)
      case Stop(f) => Some(f)
      case Upto(t, p) =>
        if t == INCLUDE_WORD then Some(Unmodelled)
        else if t == USE_WORD then
          match ReadToken(c, p)
          case Stop(f) => Some(f)
          case Upto(_, q) => Searched(c, q + 1)
        else Searched(c, p + 1)
  }

  predicate StartsLine(c: Input, pos: nat)
    requires pos < |c|
  {
    pos == 0 || c[pos - 1] == NEWLINE || c[pos - 1] == RETURN_CHAR
  }

  /** What stands from i up to the next delimiter. */
  function TokenFrom(c: Input, i: nat): (t: seq<Byte>)
    requires i < |c|
  {
    var end := TokenEnd(c, i + 1);
    c[i..if end < |c| then end else |c| - 1]
  }

  /** Nowhere in the text stands an overlong token or the word include. */
  ghost predicate Quiet(c: Input) {
    forall i {:trigger TokenFrom(c, i)} ::
      0 <= i < |c| ==> |TokenFrom(c, i)| < MAX_TOKEN && TokenFrom(c, i) != INCLUDE_WORD
  }

  /** The search gets through every quiet text whose last line is complete, wherever it stands. */
  lemma {:induction false} QuietPasses(c: Input, pos: nat)
    requires Quiet(c) && (|c| == 1 || c[|c| - 2] == NEWLINE)
    ensures Searched(c, pos) == None
    decreases |c| - pos
  {
    hide TokenEnd, Searched;
    if pos < |c| {
      var p := if StartsLine(c, pos) then pos else pos + 1;
      assert p < |c|;
      TokenStays(c, p);
      SearchedUnfold(c, pos);
      var r := ReadToken(c, p);
      if r.value == USE_WORD {
        TokenStays(c, r.pos);
        QuietPasses(c, ReadToken(c, r.pos).pos + 1);
      } else {
        QuietPasses(c, r.pos + 1);
      }
    } else {
      SearchedPast(c, pos);
    }
  }

  lemma SearchedPast(c: Input, pos: nat)
    requires pos >= |c|
    ensures Searched(c, pos) == None
  {
  }

  lemma SearchedUnfold(c: Input, pos: nat)
    requires pos < |c|
    ensures Searched(c, pos) ==
            match ReadToken(c, if StartsLine(c, pos) then pos else pos + 1)
            case Stop(f) => Some(f)
            case Upto(t, p) =>
              if t == INCLUDE_WORD then Some(Unmodelled)
              else if t == USE_WORD then
                match ReadToken(c, p)
                case Stop(f) => Some(f)
                case Upto(_, q) => Searched(c, q + 1)
              else Searched(c, p + 1)
  {
  }

  /** In such a text a token is read from every place, and one that is not empty is followed by a delimiter. */
  lemma TokenStays(c: Input, p: nat)
    requires p < |c| && Quiet(c) && (|c| == 1 || c[|c| - 2] == NEWLINE)
    ensures var r := ReadToken(c, p);
            r.Upto? && r.value != INCLUDE_WORD && r.pos > p && (r.value != [] ==> r.pos < |c|)
  {
    var start := Spaces(c, p);
    var token := TokenFrom(c, start);
    assert |token| < MAX_TOKEN && token != INCLUDE_WORD;
    assert ReadToken(c, p).Upto? && ReadToken(c, p).value == token;
    if start < |c| - 1 {
      assert start < |c| - 2;
      TokenEndBefore(c, start + 1, |c| - 2);
    }
  }

  lemma {:induction false} TokenEndBefore(c: Input, i: nat, n: nat)
    requires i <= n < |c| && Delimits(c[n])
    ensures TokenEnd(c, i) <= n
    decreases n - i
  {
    if !Delimits(c[i]) { TokenEndBefore(c, i + 1, n); }
  }

  /** Instructions already emitted, in front of what the rest of the text makes. */
  function Joined(done: seq<Instr>, r: Read<seq<Instr>>): (j: Read<seq<Instr>>) {
    match r
    case Stop(f) => Stop(f)
    case Upto(ins, p) => Upto(done + ins, p)
  }

  lemma JoinedNone(r: Read<seq<Instr>>)
    ensures Joined([], r) == r
  {
    if r.Upto? { assert [] + r.value == r.value; }
  }

  lemma JoinedMore(done: seq<Instr>, ins: seq<Instr>, r: Read<seq<Instr>>)
    ensures Joined(done, Joined(ins, r)) == Joined(done + ins, r)
  {
    if r.Upto? { assert done + (ins + r.value) == done + ins + r.value; }
  }
}
