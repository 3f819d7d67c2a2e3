/** Writing whole programs as source text, and why the digestion of that text emits exactly their code. */
module Layout {
  import opened Bytes
  import opened Bytecode
  import opened Values
  import opened Syntax
  import opened Grammar
  import opened Digest
  import opened Rendering
  import opened Scanning
  import opened Pieces
  import opened Program

  // ----- writing -----

  /** Above every line so many empty lines; pad starts it; gap is between if or while and its condition; ws is
      used inside expressions. Behind a head, an else and a brace stands sep, a newline or a space. Up to so many
      declarations go into one list. */
  datatype Style =
    Style(lines: nat, pad: seq<Byte>, gap: seq<Byte>, ws: seq<Byte>, sep: Byte, lists: nat)

  predicate WfStyle(y: Style) {
    Inline(y.pad) && Inline(y.gap) && Inline(y.ws) && (y.sep == NEWLINE || y.sep == SPACE)
  }

  function Breaks(n: nat): (t: seq<Byte>) {
    if n == 0 then [] else [NEWLINE] + Breaks(n - 1)
  }

  /** Empty lines and an indentation. */
  function Lead(y: Style): (t: seq<Byte>) {
    Breaks(y.lines) + y.pad
  }

  function Ended(y: Style, t: seq<Byte>, z: Byte): (r: seq<Byte>) {
    Lead(y) + t + [z]
  }

  function Line(y: Style, t: seq<Byte>): (r: seq<Byte>) {
    Ended(y, t, NEWLINE)
  }

  /** A head, an else or a brace. */
  function Mark(y: Style, t: seq<Byte>): (r: seq<Byte>) {
    Ended(y, t, y.sep)
  }

  function Group(y: Style, inner: seq<Byte>): (r: seq<Byte>) {
    Mark(y, [OPEN_BRACE]) + inner + Mark(y, [CLOSE_BRACE])
  }

  function Head(y: Style, word: Name, c: Expr): (r: seq<Byte>) {
    Mark(y, word + (y.gap + Enclosed(c, y.ws)))
  }

  function Text(y: Style, s: Stmt): (t: seq<Byte>)
    decreases s, 1
  {
    match s
    case Declare(x) => Line(y, VAR_WORD + [SPACE] + x)
    case Define(x, e) => Line(y, VAR_WORD + [SPACE] + x + [EQUALS] + Render(e, 0, y.ws))
    case Eval(e) => Line(y, Render(e, 0, y.ws))
    case If(c, yes) => Head(y, IF_WORD, c) + Group(y, Texts(y, yes))
    case IfElse(c, yes, no) =>
      Head(y, IF_WORD, c) + Group(y, Texts(y, yes)) + (Mark(y, ELSE_WORD) + Group(y, Texts(y, no)))
    case While(c, body) => Head(y, WHILE_WORD, c) + Group(y, Texts(y, body))
  }

  predicate IsItem(s: Stmt) {
    s.Declare? || s.Define?
  }

  /** How many of the statements stand in the list at their head. */
  function Listed(ss: seq<Stmt>, n: nat): (k: nat)
    ensures k <= |ss| && k <= n && forall i :: 0 <= i < k ==> IsItem(ss[i])
  {
    if ss == [] || n == 0 || !IsItem(ss[0]) then 0 else 1 + Listed(ss[1..], n - 1)
  }

  function Item(y: Style, s: Stmt): (t: seq<Byte>) {
    match s
    case Declare(x) => x
    case Define(x, e) => x + [EQUALS] + Render(e, 0, y.ws)
    case _ => []
  }

  function Items(y: Style, ss: seq<Stmt>): (t: seq<Byte>) {
    if ss == [] then []
    else if |ss| == 1 then Item(y, ss[0])
    else Item(y, ss[0]) + [COMMA] + y.ws + Items(y, ss[1..])
  }

  function Texts(y: Style, ss: seq<Stmt>): (t: seq<Byte>)
    decreases ss, 0
  {
    if ss == [] then []
    else
      var k := Listed(ss, y.lists);
      if k >= 2 then Line(y, VAR_WORD + [SPACE] + Items(y, ss[..k])) + Texts(y, ss[k..])
      else Text(y, ss[0]) + Texts(y, ss[1..])
  }

  function ParamText(y: Style, params: seq<Name>): (t: seq<Byte>) {
    if params == [] then []
    else if |params| == 1 then params[0]
    else params[0] + [COMMA] + y.ws + ParamText(y, params[1..])
  }

  function ReturnText(y: Style, ret: Option<Expr>): (t: seq<Byte>) {
    match ret
    case None => []
    case Some(e) => Line(y, RETURN_WORD + [SPACE] + Render(e, 0, y.ws))
  }

  function BlockLine(y: Style, d: Def): (t: seq<Byte>) {
    Ended(y, BLOCK_WORD + [SPACE] + d.name + [OPEN] + ParamText(y, d.fn.params) + [CLOSE], BlockEnd(y, d))
  }

  /** An empty list of parameters must be the last on its line. */
  function BlockEnd(y: Style, d: Def): (z: Byte) {
    if d.fn.params == [] then NEWLINE else y.sep
  }

  function DefText(y: Style, d: Def): (t: seq<Byte>) {
    BlockLine(y, d) +
    Group(y, Texts(y, d.fn.body) + ReturnText(y, d.fn.ret))
  }

  function DefTexts(y: Style, ds: seq<Def>): (t: seq<Byte>) {
    if ds == [] then [] else DefText(y, ds[0]) + DefTexts(y, ds[1..])
  }

  function SourceText(y: Style, src: Source): (t: seq<Byte>) {
    DefTexts(y, src.defs) + Texts(y, src.main)
  }

  // ----- what can be written -----

  predicate Keyword(t: Name) {
    t == VAR_WORD || t == RETURN_WORD || t == BLOCK_WORD || t == IF_WORD || t == WHILE_WORD || t == ELSE_WORD ||
    t == USE_WORD || t == [OPEN_BRACE] || t == [CLOSE_BRACE]
  }

  /** The first token of a line that holds an expression is short enough and no keyword. */
  predicate OpensExpr(t: seq<Byte>) {
    var r := ReadToken(t + [NEWLINE, NUL], 0);
    r.Upto? && !Keyword(r.value)
  }

  predicate TokenName(x: Name) {
    IsName(x) && |x| < MAX_TOKEN
  }

  predicate Writable(y: Style, s: Stmt)
    decreases s, 1
  {
    match s
    case Declare(x) => TokenName(x) && !Reserved(x)
    case Define(x, e) => TokenName(x) && !Reserved(x) && Printable(e)
    case Eval(e) => Printable(e) && OpensExpr(Render(e, 0, y.ws))
    case If(c, yes) => Printable(c) && Scannable(false, c) && WritableAll(y, yes)
    case IfElse(c, yes, no) => Printable(c) && Scannable(false, c) && WritableAll(y, yes) && WritableAll(y, no)
    case While(c, body) => Printable(c) && Scannable(false, c) && WritableAll(y, body)
  }

  predicate WritableAll(y: Style, ss: seq<Stmt>)
    decreases ss, 0
  {
    ss == [] || (Writable(y, ss[0]) && WritableAll(y, ss[1..]))
  }

  predicate WritableDef(y: Style, d: Def) {
    TokenName(d.name) && (forall x :: x in d.fn.params ==> TokenName(x) && !Reserved(x)) &&
    WritableAll(y, d.fn.body) && (d.fn.ret.Some? ==> Printable(d.fn.ret.value))
  }

  predicate WritableSource(y: Style, src: Source) {
    (forall d :: d in src.defs ==> WritableDef(y, d)) && WritableAll(y, src.main)
  }

  // ----- reading on from a position -----

  /** From pos on, the digestion emits ins and then goes on from next. */
  ghost predicate Goes(h: Host, c: Input, pos: nat, a: bool, ins: seq<Instr>, next: nat, b: bool) {
    Digested(h, c, pos, a) == Joined(ins, Digested(h, c, next, b))
  }

  lemma GoesThen(h: Host, c: Input, pos: nat, a: bool, i: seq<Instr>, mid: nat, b: bool, j: seq<Instr>, next: nat,
                 d: bool)
    requires Goes(h, c, pos, a, i, mid, b) && Goes(h, c, mid, b, j, next, d)
    ensures Goes(h, c, pos, a, i + j, next, d)
  {
    hide Digested;
    JoinedMore(i, j, Digested(h, c, next, d));
  }

  lemma GoesNowhere(h: Host, c: Input, pos: nat, a: bool)
    ensures Goes(h, c, pos, a, [], pos, a)
  {
    hide Digested;
    JoinedNone(Digested(h, c, pos, a));
  }

  lemma GoesOne(h: Host, c: Input, pos: nat, a: bool, ins: seq<Instr>, next: nat, b: bool)
    requires pos < |c| && c[pos] != NUL && Statement(h, c, pos, a) == Upto((ins, b), next)
    ensures Goes(h, c, pos, a, ins, next, b)
  {
    hide Statement;
  }

  /** The text has no zero byte but the last. */
  ghost predicate Clear(c: Input) {
    forall k :: 0 <= k < |c| - 1 ==> c[k] != NUL
  }

  lemma NewlineStatement(h: Host, c: Input, pos: nat, a: bool)
    requires pos + 1 < |c| && c[pos] == NEWLINE && (c[pos + 1] == NUL ==> pos + 2 == |c|)
    ensures Statement(h, c, pos, a) == Upto(([], a), pos + 1) ||
            (c[pos + 1] != NUL && Statement(h, c, pos, a) == Statement(h, c, pos + 1, a))
  {
    hide Declarations, BlockHead, CondEnd, TokenEnd;
    assert Spaces(c, pos) == Spaces(c, pos + 1);
    assert ReadToken(c, pos) == ReadToken(c, pos + 1);
    if c[pos + 1] == NUL {
      assert ReadToken(c, pos) == Upto([], |c|);
    }
    hide ReadToken;
    assert ExprAt(h, c, pos, ExprEnd(c, pos, false, 0)) == Upto([], pos);
    hide ExprAt, ExprEnd;
  }

  /** A newline in front of a statement makes no difference. */
  lemma GoesOverNewline(h: Host, c: Input, pos: nat, a: bool)
    requires pos + 1 < |c| && c[pos] == NEWLINE && (c[pos + 1] == NUL ==> pos + 2 == |c|)
    ensures Goes(h, c, pos, a, [], pos + 1, a)
  {
    hide Statement;
    NewlineStatement(h, c, pos, a);
    JoinedNone(Digested(h, c, pos + 1, a));
  }

  // ----- tokens -----

  lemma {:induction false} TokenEndAt(c: Input, pos: nat, w: seq<Byte>)
    requires At(c, pos, w) && pos + |w| < |c| && Delimits(c[pos + |w|])
    requires forall b :: b in w ==> !Delimits(b)
    ensures TokenEnd(c, pos) == pos + |w|
    decreases |w|
  {
    if w != [] {
      AtTail(c, pos, w);
      assert w[0] in w;
      TokenEndAt(c, pos + 1, w[1..]);
    }
  }

  /** White space, a token, and a delimiter behind it. */
  lemma TokenRead(c: Input, pos: nat, pad: seq<Byte>, w: seq<Byte>)
    requires At(c, pos, pad + w) && Blank(pad) && w != [] && |w| < MAX_TOKEN
    requires pos + |pad| + |w| < |c| && Delimits(c[pos + |pad| + |w|])
    requires !IsSpace(w[0]) && forall b :: b in w[1..] ==> !Delimits(b)
    ensures ReadToken(c, pos) == Upto(w, pos + |pad| + |w|)
  {
    hide TokenEnd;
    AtSplit(c, pos, pad, w);
    AtTail(c, pos + |pad|, w);
    SpacesAt(c, pos, pad);
    TokenEndAt(c, pos + |pad| + 1, w[1..]);
    AtSlice(c, pos + |pad|, w);
  }

  lemma {:induction false} BreaksBlank(n: nat)
    ensures |Breaks(n)| == n && Blank(Breaks(n))
  {
    if n > 0 { BreaksBlank(n - 1); }
  }

  lemma LeadBlank(y: Style)
    requires WfStyle(y)
    ensures Blank(Lead(y)) && |Lead(y)| == y.lines + |y.pad|
  {
    BreaksBlank(y.lines);
  }

  lemma LineParts(y: Style, c: Input, pos: nat, t: seq<Byte>, z: Byte)
    requires At(c, pos, Ended(y, t, z)) && pos + |Ended(y, t, z)| < |c| && t != []
    ensures At(c, pos, Lead(y)) && At(c, pos, Lead(y) + t) && At(c, pos + |Lead(y)|, t) &&
            c[pos + |Lead(y)| + |t|] == z
    ensures |Ended(y, t, z)| == |Lead(y)| + |t| + 1 && c[pos] == if Lead(y) == [] then t[0] else Lead(y)[0]
  {
    AtSplit(c, pos, Lead(y) + t, [z]);
    AtSplit(c, pos, Lead(y), t);
    assert [z][0] == z;
    if Lead(y) == [] { AtTail(c, pos, t); } else { AtTail(c, pos, Lead(y)); }
  }

  /** The keyword at the head of a line, with a delimiter behind it. */
  lemma KeywordRead(y: Style, c: Input, pos: nat, w: seq<Byte>, rest: seq<Byte>, z: Byte)
    requires WfStyle(y) && At(c, pos, Ended(y, w + rest, z)) && pos + |Ended(y, w + rest, z)| < |c|
    requires w != [] && |w| < MAX_TOKEN && w[0] != NUL && !IsSpace(w[0]) && (forall b :: b in w[1..] ==> !Delimits(b))
    requires if rest != [] then Delimits(rest[0]) else Delimits(z)
    ensures ReadToken(c, pos) == Upto(w, pos + |Lead(y)| + |w|) && c[pos] != NUL
    ensures At(c, pos + |Lead(y)| + |w|, rest)
  {
    hide ReadToken, Lead;
    LeadBlank(y);
    LineParts(y, c, pos, w + rest, z);
    AtSplit(c, pos + |Lead(y)|, w, rest);
    assert Lead(y) + (w + rest) == Lead(y) + w + rest;
    AtSplit(c, pos, Lead(y) + w, rest);
    if rest != [] { AtTail(c, pos + |Lead(y)| + |w|, rest); }
    if Lead(y) != [] { assert Lead(y)[0] in Lead(y); }
    TokenRead(c, pos, Lead(y), w);
  }

  lemma WordLine(h: Host, y: Style, c: Input, pos: nat, w: seq<Byte>, a: bool)
    requires WfStyle(y) && At(c, pos, Mark(y, w)) && pos + |Mark(y, w)| < |c|
    requires w == [OPEN_BRACE] || w == [CLOSE_BRACE] || w == ELSE_WORD
    ensures Goes(h, c, pos, a,
                 if w == [OPEN_BRACE] then (if a then [] else [Op(BLOCK_START)])
                 else [Op(if w == ELSE_WORD then ELSE else BLOCK_END)],
                 pos + |Mark(y, w)|, if w == [OPEN_BRACE] then false else a)
  {
    hide ReadToken, Goes, Declarations, ExprAt, ExprEnd, CondEnd, BlockHead;
    assert w + [] == w;
    KeywordRead(y, c, pos, w, [], y.sep);
    var ins := if w == [OPEN_BRACE] then (if a then [] else [Op(BLOCK_START)])
               else [Op(if w == ELSE_WORD then ELSE else BLOCK_END)];
    GoesOne(h, c, pos, a, ins, pos + |Mark(y, w)|, if w == [OPEN_BRACE] then false else a);
  }

  // ----- expressions in the text -----

  predicate StartChar(b: Byte) {
    IsWord(b) || b == QUOTE || b == OPEN || b == DASH || b == PLUS || b == BANG
  }

  lemma {:induction false} RenderFirst(e: Expr, lvl: nat, ws: seq<Byte>)
    requires Printable(e)
    ensures Render(e, lvl, ws) != [] && StartChar(Render(e, lvl, ws)[0])
    decreases e, 1
  {
    if Level(e) >= lvl {
      match e
      case Bin(op, l, r) => RenderFirst(l, LeftLevel(op), ws);
      case Assign(l, r) => RenderFirst(l, 3, ws);
      case Quoted(t) => assert Body(e, ws)[0] == QUOTE;
      case Call(f, args) => assert Body(e, ws)[0] == f[0] && f[0] in f;
      case Foreign(lib, fn, args) => assert Body(e, ws)[0] == lib[0] && lib[0] in lib;
      case Print(a) => assert Body(e, ws)[0] == PRINT_NAME[0];
      case _ =>
    }
  }

  /** An expression up to the end of its line, or up to a comma. */
  lemma ExprRead(h: Host, y: Style, c: Input, pos: nat, pad: seq<Byte>, e: Expr)
    requires WfStyle(y) && Inline(pad) && Printable(e) && At(c, pos, pad + Render(e, 0, y.ws))
    requires pos + |pad| + |Render(e, 0, y.ws)| < |c|
    requires var z := c[pos + |pad| + |Render(e, 0, y.ws)|]; z == NEWLINE || z == COMMA
    ensures var end := pos + |pad| + |Render(e, 0, y.ws)|;
            ExprEnd(c, pos, false, 0) == end && ExprAt(h, c, pos, end) == Upto(Compile(h, e), end)
  {
    hide Parse, Compile, Printable, Render, Track;
    var t := pad + Render(e, 0, y.ws);
    AwareScans(e);
    RenderPasses(true, e, 0, y.ws, 0);
    SpacePasses(true, pad, 0);
    PassesConcat(true, pad, Render(e, 0, y.ws), 0);
    ExprEndTracks(c, pos, t, false, 0);
    AtSlice(c, pos, t);
    RoundTrip(e, pad, y.ws);
    RenderFirst(e, 0, y.ws);
  }

  lemma EnclosedEnd(y: Style, c: Input, b: nat, e: Expr)
    requires WfStyle(y) && Printable(e) && Scannable(false, e) && At(c, b, Enclosed(e, y.ws))
    requires b + |Enclosed(e, y.ws)| < |c| < 0x1_0000_0000_0000_0000
    ensures CondEnd(c, b, 0) == b + |Enclosed(e, y.ws)|
  {
    hide Printable, Track, Body;
    var t := y.ws + Body(e, y.ws) + y.ws;
    assert Enclosed(e, y.ws) == [OPEN] + t + [CLOSE];
    InnerPasses(e, y.ws);
    AtSplit(c, b, [OPEN] + t, [CLOSE]);
    AtSplit(c, b, [OPEN], t);
    assert [OPEN][0] == OPEN && [CLOSE][0] == CLOSE;
    CondEndTracks(c, b + 1, t, 1);
  }

  /** A condition in its parentheses, with blanks in front. */
  lemma ConditionRead(h: Host, y: Style, c: Input, pos: nat, gap: seq<Byte>, e: Expr)
    requires WfStyle(y) && Inline(gap) && Printable(e) && Scannable(false, e) && At(c, pos, gap + Enclosed(e, y.ws))
    requires pos + |gap| + |Enclosed(e, y.ws)| < |c| < 0x1_0000_0000_0000_0000
    ensures var end := pos + |gap| + |Enclosed(e, y.ws)|;
            CondEnd(c, pos, 0) == end && ExprAt(h, c, pos, end) == Upto(Compile(h, e), end)
  {
    hide Parse, Compile, Printable, Enclosed, CondEnd;
    AtSplit(c, pos, gap, Enclosed(e, y.ws));
    CondEndBlank(c, pos, gap);
    EnclosedEnd(y, c, pos + |gap|, e);
    AtSlice(c, pos, gap + Enclosed(e, y.ws));
    RoundTripEnclosed(e, gap, y.ws);
    EnclosedFirst(e, y.ws);
  }

  lemma EnclosedFirst(e: Expr, ws: seq<Byte>)
    ensures Enclosed(e, ws) != []
  {
  }

  lemma InnerPasses(e: Expr, ws: seq<Byte>)
    requires Inline(ws) && Printable(e) && Scannable(false, e)
    ensures Passes(false, ws + Body(e, ws) + ws, 1)
  {
    hide Passes, Body;
    BodyPasses(false, e, ws, 1);
    SpacePasses(false, ws, 1);
    PassesConcat(false, ws, Body(e, ws), 1);
    PassesConcat(false, ws + Body(e, ws), ws, 1);
  }

  // ----- simple statements -----

  lemma NameParts(x: Name)
    requires TokenName(x)
    ensures x != [] && |x| < MAX_TOKEN && x[0] != NUL && !IsSpace(x[0]) && forall b :: b in x ==> !Delimits(b)
    ensures x[0] != CLOSE
  {
    assert x[0] in x;
  }

  /** `var `, a name, and what follows it. */
  lemma VarRead(y: Style, c: Input, pos: nat, x: Name, rest: seq<Byte>)
    requires WfStyle(y) && TokenName(x) && At(c, pos, Line(y, VAR_WORD + [SPACE] + x + rest))
    requires pos + |Line(y, VAR_WORD + [SPACE] + x + rest)| < |c| && (rest != [] ==> Delimits(rest[0]))
    ensures var p := pos + |Lead(y)| + 3;
            ReadToken(c, pos) == Upto(VAR_WORD, p) && c[pos] != NUL && ReadToken(c, p) == Upto(x, p + 1 + |x|) &&
            At(c, p + 1 + |x|, rest) && c[p + 1 + |x| + |rest|] == NEWLINE
  {
    hide ReadToken;
    NameParts(x);
    var more := [SPACE] + x + rest;
    assert VAR_WORD + [SPACE] + x + rest == VAR_WORD + more;
    KeywordRead(y, c, pos, VAR_WORD, more, NEWLINE);
    var p := pos + |Lead(y)| + 3;
    LineParts(y, c, pos, VAR_WORD + more, NEWLINE);
    AtSplit(c, p, [SPACE] + x, rest);
    if rest != [] { AtTail(c, p + 1 + |x|, rest); }
    TokenRead(c, p, [SPACE], x);
  }

  lemma DigestDeclare(h: Host, y: Style, c: Input, pos: nat, x: Name)
    requires WfStyle(y) && Clear(c) && Writable(y, Declare(x)) && At(c, pos, Text(y, Declare(x)))
    requires pos + |Text(y, Declare(x))| < |c|
    ensures Goes(h, c, pos, false, [Tok(VAR, x)], pos + |Text(y, Declare(x))|, false)
  {
    hide ReadToken, Goes, Assigned, ExprAt, ExprEnd, CondEnd, BlockHead;
    assert VAR_WORD + [SPACE] + x + [] == VAR_WORD + [SPACE] + x;
    VarRead(y, c, pos, x, []);
    NameParts(x);
    var p := pos + |Lead(y)| + 3;
    var q := p + 1 + |x|;
    assert Declaration(h, c, p, false) == Upto(([Tok(VAR, x)], false), q);
    GoesOne(h, c, pos, false, [Tok(VAR, x)], q, false);
    GoesOverNewline(h, c, q, false);
    GoesThen(h, c, pos, false, [Tok(VAR, x)], q, false, [], q + 1, false);
    assert [Tok(VAR, x)] + [] == [Tok(VAR, x)];
  }

  /** `=` and the value, up to the end of the line or a comma. */
  lemma AssignedRead(h: Host, y: Style, c: Input, q: nat, x: Name, e: Expr)
    requires WfStyle(y) && Printable(e) && At(c, q, [EQUALS] + Render(e, 0, y.ws))
    requires q + 1 + |Render(e, 0, y.ws)| < |c|
    requires var z := c[q + 1 + |Render(e, 0, y.ws)|]; z == NEWLINE || z == COMMA
    ensures c[q] == EQUALS && Blanks(c, q + 1) == q + 1
    ensures Assigned(h, c, q + 1, x, false) == Upto(Compile(h, e) + [Tok(VARX, x)], q + 1 + |Render(e, 0, y.ws)|)
  {
    hide ExprAt, ExprEnd, Render, Compile, Printable;
    var r := Render(e, 0, y.ws);
    AtSplit(c, q, [EQUALS], r);
    assert [EQUALS][0] == EQUALS;
    RenderFirst(e, 0, y.ws);
    AtTail(c, q + 1, r);
    assert [] + r == r;
    ExprRead(h, y, c, q + 1, [], e);
  }

  lemma DigestDefine(h: Host, y: Style, c: Input, pos: nat, x: Name, e: Expr)
    requires WfStyle(y) && Writable(y, Define(x, e)) && At(c, pos, Text(y, Define(x, e)))
    requires pos + |Text(y, Define(x, e))| < |c|
    ensures Goes(h, c, pos, false, Compile(h, e) + [Tok(VARX, x)], pos + |Text(y, Define(x, e))|, false)
  {
    hide ReadToken, Goes, ExprAt, ExprEnd, CondEnd, BlockHead, Render, Compile, Printable, Assigned;
    var r := Render(e, 0, y.ws);
    assert VAR_WORD + [SPACE] + x + [EQUALS] + r == VAR_WORD + [SPACE] + x + ([EQUALS] + r);
    VarRead(y, c, pos, x, [EQUALS] + r);
    NameParts(x);
    var p := pos + |Lead(y)| + 3;
    var q := p + 1 + |x|;
    AssignedRead(h, y, c, q, x, e);
    var ins := Compile(h, e) + [Tok(VARX, x)];
    assert Declaration(h, c, p, false) == Upto((ins, false), q + 2 + |r|);
    GoesOne(h, c, pos, false, ins, q + 2 + |r|, false);
  }

  /** The first token does not depend on what surrounds the line. */
  lemma {:induction false} TokenEndShift(c: Input, pos: nat, s: Input, i: nat, n: nat)
    requires i <= n < |s| && pos + n < |c| && Delimits(s[n])
    requires forall k :: i <= k <= n ==> c[pos + k] == s[k]
    ensures TokenEnd(c, pos + i) == pos + TokenEnd(s, i) && TokenEnd(s, i) <= n
    decreases n - i
  {
    if !Delimits(s[i]) {
      assert c[pos + i] == s[i];
      TokenEndShift(c, pos, s, i + 1, n);
    }
  }

  lemma OpensToken(y: Style, c: Input, pos: nat, t: seq<Byte>)
    requires WfStyle(y) && t != [] && !IsSpace(t[0]) && t[0] != NUL && OpensExpr(t) && At(c, pos, Line(y, t))
    requires pos + |Line(y, t)| < |c|
    ensures c[pos] != NUL && ReadToken(c, pos).Upto? && !Keyword(ReadToken(c, pos).value)
  {
    hide TokenEnd, Keyword, Lead;
    LeadBlank(y);
    LineParts(y, c, pos, t, NEWLINE);
    if Lead(y) != [] { assert Lead(y)[0] in Lead(y); }
    var s: Input := t + [NEWLINE, NUL];
    var b := pos + |Lead(y)|;
    AtTail(c, b, t);
    SpacesAt(c, pos, Lead(y));
    forall k | 0 <= k <= |t| ensures c[b + k] == s[k] {
      if k < |t| { assert c[b + k] == t[k]; }
    }
    TokenEndShift(c, b, s, 1, |t|);
    var n := TokenEnd(s, 1);
    assert c[b..b + n] == s[0..n];
  }

  /** Empty lines in front of a statement. */
  lemma {:induction false} GoesOverBreaks(h: Host, c: Input, pos: nat, n: nat, a: bool)
    requires At(c, pos, Breaks(n)) && pos + n < |c| && c[pos + n] != NUL
    ensures |Breaks(n)| == n && Goes(h, c, pos, a, [], pos + n, a)
    decreases n
  {
    hide Goes;
    if n == 0 {
      GoesNowhere(h, c, pos, a);
    } else {
      BreaksBlank(n);
      AtTail(c, pos, Breaks(n));
      assert Breaks(n)[1..] == Breaks(n - 1);
      if n > 1 { BreaksBlank(n - 1); AtTail(c, pos + 1, Breaks(n - 1)); }
      GoesOverNewline(h, c, pos, a);
      GoesOverBreaks(h, c, pos + 1, n - 1, a);
      GoesThen(h, c, pos, a, [], pos + 1, a, [], pos + n, a);
      var none: seq<Instr> := [];
      assert none + none == none;
    }
  }

  lemma DigestEval(h: Host, y: Style, c: Input, pos: nat, e: Expr)
    requires WfStyle(y) && Writable(y, Eval(e)) && At(c, pos, Text(y, Eval(e))) && pos + |Text(y, Eval(e))| < |c|
    ensures Goes(h, c, pos, false, Compile(h, e), pos + |Text(y, Eval(e))|, false)
  {
    hide Goes, Compile, Printable, OpensExpr, Render;
    var z := y.(lines := 0);
    var mid := pos + y.lines;
    assert Lead(z) == y.pad;
    assert Text(y, Eval(e)) == Breaks(y.lines) + Text(z, Eval(e));
    BreaksBlank(y.lines);
    AtSplit(c, pos, Breaks(y.lines), Text(z, Eval(e)));
    DigestLine(h, z, c, mid, e);
    GoesOverBreaks(h, c, pos, y.lines, false);
    GoesThen(h, c, pos, false, [], mid, false, Compile(h, e), pos + |Text(y, Eval(e))|, false);
    assert [] + Compile(h, e) == Compile(h, e);
  }

  /** An expression on its line, without empty lines above it. */
  lemma DigestLine(h: Host, y: Style, c: Input, pos: nat, e: Expr)
    requires WfStyle(y) && y.lines == 0
    requires Writable(y, Eval(e)) && At(c, pos, Text(y, Eval(e))) && pos + |Text(y, Eval(e))| < |c|
    ensures c[pos] != NUL
    ensures Goes(h, c, pos, false, Compile(h, e), pos + |Text(y, Eval(e))|, false)
  {
    hide ReadToken, Goes, ExprAt, ExprEnd, CondEnd, BlockHead, Render, Compile, Printable, OpensExpr, Declarations;
    var r := Render(e, 0, y.ws);
    RenderFirst(e, 0, y.ws);
    LineParts(y, c, pos, r, NEWLINE);
    OpensToken(y, c, pos, r);
    assert Lead(y) == y.pad;
    ExprRead(h, y, c, pos, y.pad, e);
    GoesOne(h, c, pos, false, Compile(h, e), pos + |Text(y, Eval(e))|, false);
  }

  lemma GapDelimits(y: Style, e: Expr)
    requires WfStyle(y)
    ensures var t := y.gap + Enclosed(e, y.ws); t != [] && Delimits(t[0])
  {
    if y.gap != [] { assert y.gap[0] in y.gap; }
  }

  /** The head of if and while. */
  lemma DigestHead(h: Host, y: Style, c: Input, pos: nat, w: Name, e: Expr)
    requires WfStyle(y) && (w == IF_WORD || w == WHILE_WORD) && Printable(e) && Scannable(false, e)
    requires At(c, pos, Head(y, w, e)) && pos + |Head(y, w, e)| < |c| < 0x1_0000_0000_0000_0000
    ensures Goes(h, c, pos, false, Guard(h, if w == IF_WORD then IF else WHILE, e), pos + |Head(y, w, e)|, false)
  {
    hide ReadToken, Goes, ExprAt, ExprEnd, CondEnd, BlockHead, Compile, Printable, Declarations, Body;
    var cond := y.gap + Enclosed(e, y.ws);
    GapDelimits(y, e);
    KeywordRead(y, c, pos, w, cond, y.sep);
    LineParts(y, c, pos, w + cond, y.sep);
    var p := pos + |Lead(y)| + |w|;
    hide Enclosed;
    ConditionRead(h, y, c, p, y.gap, e);
    GoesOne(h, c, pos, false, Guard(h, if w == IF_WORD then IF else WHILE, e), pos + |Head(y, w, e)|, false);
  }

  // ----- lists of declarations -----

  /** One declaration of a list, up to a comma or the end of the line. */
  lemma ItemRead(h: Host, y: Style, c: Input, p: nat, lead: seq<Byte>, s: Stmt)
    requires WfStyle(y) && Blank(lead) && IsItem(s) && Writable(y, s) && At(c, p, lead + Item(y, s))
    requires p + |lead| + |Item(y, s)| < |c|
    requires var z := c[p + |lead| + |Item(y, s)|]; z == NEWLINE || z == COMMA
    ensures var end := p + |lead| + |Item(y, s)|;
            Declaration(h, c, p, false) ==
            Upto((CompileStmt(h, s), c[end] == COMMA), if c[end] == COMMA || s.Define? then end + 1 else end)
  {
    hide Declaration, Item, Writable, CompileStmt;
    match s
    case Declare(x) => DeclaredRead(h, y, c, p, lead, x);
    case Define(x, e) => DefinedRead(h, y, c, p, lead, x, e);
  }

  lemma DeclaredRead(h: Host, y: Style, c: Input, p: nat, lead: seq<Byte>, x: Name)
    requires Blank(lead) && Writable(y, Declare(x)) && At(c, p, lead + Item(y, Declare(x)))
    requires p + |lead| + |Item(y, Declare(x))| < |c|
    requires var z := c[p + |lead| + |Item(y, Declare(x))|]; z == NEWLINE || z == COMMA
    ensures var end := p + |lead| + |Item(y, Declare(x))|;
            Declaration(h, c, p, false) ==
            Upto((CompileStmt(h, Declare(x)), c[end] == COMMA), if c[end] == COMMA then end + 1 else end)
  {
    hide ReadToken, Assigned, Reserved;
    NameParts(x);
    TokenRead(c, p, lead, x);
  }

  lemma DefinedRead(h: Host, y: Style, c: Input, p: nat, lead: seq<Byte>, x: Name, e: Expr)
    requires WfStyle(y) && Blank(lead) && Writable(y, Define(x, e)) && At(c, p, lead + Item(y, Define(x, e)))
    requires p + |lead| + |Item(y, Define(x, e))| < |c|
    requires var z := c[p + |lead| + |Item(y, Define(x, e))|]; z == NEWLINE || z == COMMA
    ensures var end := p + |lead| + |Item(y, Define(x, e))|;
            Declaration(h, c, p, false) == Upto((CompileStmt(h, Define(x, e)), c[end] == COMMA), end + 1)
  {
    hide ReadToken, Render, Compile, Printable, Assigned, Reserved;
    NameParts(x);
    var rest := [EQUALS] + Render(e, 0, y.ws);
    assert lead + Item(y, Define(x, e)) == lead + x + rest;
    AtSplit(c, p, lead + x, rest);
    var q := p + |lead| + |x|;
    AtTail(c, q, rest);
    AssignedRead(h, y, c, q, x, e);
    TokenRead(c, p, lead, x);
  }

  /** A whole list. */
  lemma {:induction false} ItemsRead(h: Host, y: Style, c: Input, p: nat, lead: seq<Byte>, ss: seq<Stmt>)
    requires WfStyle(y) && Blank(lead) && ss != [] && forall s :: s in ss ==> IsItem(s) && Writable(y, s)
    requires At(c, p, lead + Items(y, ss)) && p + |lead| + |Items(y, ss)| < |c|
    requires c[p + |lead| + |Items(y, ss)|] == NEWLINE
    ensures var end := p + |lead| + |Items(y, ss)|;
            Declarations(h, c, p, false) ==
            Upto(CompileStmts(h, ss), if ss[|ss| - 1].Define? then end + 1 else end)
    decreases |ss|
  {
    hide Declaration, Item, Writable, CompileStmt, IsItem;
    var s, more := ss[0], ss[1..];
    if more == [] {
      ItemRead(h, y, c, p, lead, s);
      assert CompileStmts(h, ss) == CompileStmt(h, s) + [] == CompileStmt(h, s);
    } else {
      var tail := y.ws + Items(y, more);
      assert lead + Items(y, ss) == lead + Item(y, s) + [COMMA] + tail;
      AtSplit(c, p, lead + Item(y, s) + [COMMA], tail);
      AtSplit(c, p, lead + Item(y, s), [COMMA]);
      assert [COMMA][0] == COMMA;
      ItemRead(h, y, c, p, lead, s);
      ItemsRead(h, y, c, p + |lead| + |Item(y, s)| + 1, y.ws, more);
    }
  }

  lemma DigestList(h: Host, y: Style, c: Input, pos: nat, ss: seq<Stmt>)
    requires WfStyle(y) && Clear(c) && ss != [] && forall s :: s in ss ==> IsItem(s) && Writable(y, s)
    requires var t := Line(y, VAR_WORD + [SPACE] + Items(y, ss)); At(c, pos, t) && pos + |t| < |c|
    ensures Goes(h, c, pos, false, CompileStmts(h, ss), pos + |Line(y, VAR_WORD + [SPACE] + Items(y, ss))|, false)
  {
    hide ReadToken, Goes, ExprAt, ExprEnd, CondEnd, BlockHead, Declarations, CompileStmts, Items, Writable, IsItem;
    var rest := [SPACE] + Items(y, ss);
    assert VAR_WORD + [SPACE] + Items(y, ss) == VAR_WORD + rest;
    KeywordRead(y, c, pos, VAR_WORD, rest, NEWLINE);
    LineParts(y, c, pos, VAR_WORD + rest, NEWLINE);
    var p := pos + |Lead(y)| + 3;
    ItemsRead(h, y, c, p, [SPACE], ss);
    var end := p + 1 + |Items(y, ss)|;
    var ins := CompileStmts(h, ss);
    if ss[|ss| - 1].Define? {
      GoesOne(h, c, pos, false, ins, end + 1, false);
    } else {
      GoesOne(h, c, pos, false, ins, end, false);
      GoesOverNewline(h, c, end, false);
      GoesThen(h, c, pos, false, ins, end, false, [], end + 1, false);
      assert ins + [] == ins;
    }
  }

  // ----- statements -----

  lemma {:induction false} CompileStmtsSplit(h: Host, ss: seq<Stmt>, k: nat)
    requires k <= |ss|
    ensures CompileStmts(h, ss) == CompileStmts(h, ss[..k]) + CompileStmts(h, ss[k..])
    decreases k
  {
    hide CompileStmt;
    if k == 0 {
      assert ss[k..] == ss;
    } else {
      CompileStmtsSplit(h, ss[1..], k - 1);
      assert ss[..k][1..] == ss[1..][..k - 1] && ss[1..][k - 1..] == ss[k..];
    }
  }

  lemma {:induction false} AllWritable(y: Style, ss: seq<Stmt>)
    requires WritableAll(y, ss)
    ensures (forall s :: s in ss ==> Writable(y, s)) && forall k :: 0 <= k <= |ss| ==> WritableAll(y, ss[k..])
    decreases |ss|
  {
    hide Writable;
    if ss != [] {
      AllWritable(y, ss[1..]);
      forall k | 0 <= k <= |ss| ensures WritableAll(y, ss[k..]) {
        if k > 0 { assert ss[k..] == ss[1..][k - 1..]; } else { assert ss[k..] == ss; }
      }
    }
  }

  lemma GroupParts(y: Style, c: seq<Byte>, pos: nat, inner: seq<Byte>)
    requires At(c, pos, Group(y, inner))
    ensures var a, b := Mark(y, [OPEN_BRACE]), Mark(y, [CLOSE_BRACE]);
            At(c, pos, a) && At(c, pos + |a|, inner) && At(c, pos + |a| + |inner|, b) &&
            |Group(y, inner)| == |a| + |inner| + |b|
  {
    hide Mark;
    var a, b := Mark(y, [OPEN_BRACE]), Mark(y, [CLOSE_BRACE]);
    AtSplit(c, pos, a + inner, b);
    AtSplit(c, pos, a, inner);
  }

  /** Braces around statements. A brace that has been announced emits nothing. */
  lemma DigestGroup(h: Host, y: Style, c: Input, pos: nat, inner: seq<Byte>, a: bool, ins: seq<Instr>)
    requires WfStyle(y) && At(c, pos, Group(y, inner)) && pos + |Group(y, inner)| < |c|
    requires var b := pos + |Mark(y, [OPEN_BRACE])|; Goes(h, c, b, false, ins, b + |inner|, false)
    ensures Goes(h, c, pos, a, (if a then [] else [Op(BLOCK_START)]) + ins + [Op(BLOCK_END)], pos + |Group(y, inner)|,
                 false)
  {
    hide Goes;
    GroupParts(y, c, pos, inner);
    WordLine(h, y, c, pos, [OPEN_BRACE], a);
    hide Mark;
    var b := pos + |Mark(y, [OPEN_BRACE])|;
    var start := if a then [] else [Op(BLOCK_START)];
    GoesThen(h, c, pos, a, start, b, false, ins, b + |inner|, false);
    WordLine(h, y, c, b + |inner|, [CLOSE_BRACE], false);
    GoesThen(h, c, pos, a, start + ins, b + |inner|, false, [Op(BLOCK_END)], pos + |Group(y, inner)|, false);
  }

  lemma {:induction false} DigestBranch(h: Host, y: Style, c: Input, pos: nat, w: Name, e: Expr, ss: seq<Stmt>)
    requires WfStyle(y) && Clear(c) && (w == IF_WORD || w == WHILE_WORD) && Printable(e) && Scannable(false, e)
    requires WritableAll(y, ss) && At(c, pos, Head(y, w, e) + Group(y, Texts(y, ss)))
    requires pos + |Head(y, w, e) + Group(y, Texts(y, ss))| < |c| < 0x1_0000_0000_0000_0000
    ensures Goes(h, c, pos, false, Guard(h, if w == IF_WORD then IF else WHILE, e) + Braced(CompileStmts(h, ss)),
                 pos + |Head(y, w, e) + Group(y, Texts(y, ss))|, false)
    decreases ss, 1
  {
    hide Texts, WritableAll, Goes, Guard, CompileStmts, Printable, Head;
    var head, inner := Head(y, w, e), Texts(y, ss);
    AtSplit(c, pos, head, Group(y, inner));
    DigestHead(h, y, c, pos, w, e);
    var mid := pos + |head|;
    GroupParts(y, c, mid, inner);
    hide Group, Mark;
    DigestAll(h, y, c, mid + |Mark(y, [OPEN_BRACE])|, ss);
    DigestGroup(h, y, c, mid, inner, false, CompileStmts(h, ss));
    GoesThen(h, c, pos, false, Guard(h, if w == IF_WORD then IF else WHILE, e), mid, false,
             [Op(BLOCK_START)] + CompileStmts(h, ss) + [Op(BLOCK_END)], mid + |Group(y, inner)|, false);
  }

  lemma {:induction false} DigestStmt(h: Host, y: Style, c: Input, pos: nat, s: Stmt)
    requires WfStyle(y) && Clear(c) && Writable(y, s) && At(c, pos, Text(y, s))
    requires pos + |Text(y, s)| < |c| < 0x1_0000_0000_0000_0000
    ensures Goes(h, c, pos, false, CompileStmt(h, s), pos + |Text(y, s)|, false)
    decreases s, 1
  {
    hide Goes, Render, Compile, Guard, Printable, Group, Line, Mark, Head, Items;
    match s
    case Declare(x) => DigestDeclare(h, y, c, pos, x);
    case Define(x, e) => DigestDefine(h, y, c, pos, x, e);
    case Eval(e) => DigestEval(h, y, c, pos, e);
    case If(e, yes) => DigestBranch(h, y, c, pos, IF_WORD, e, yes);
    case While(e, body) => DigestBranch(h, y, c, pos, WHILE_WORD, e, body);
    case IfElse(e, yes, no) =>
      var first, second := Head(y, IF_WORD, e) + Group(y, Texts(y, yes)), Mark(y, ELSE_WORD) + Group(y, Texts(y, no));
      AtSplit(c, pos, first, second);
      DigestBranch(h, y, c, pos, IF_WORD, e, yes);
      DigestElse(h, y, c, pos + |first|, no);
      GoesThen(h, c, pos, false, Guard(h, IF, e) + Braced(CompileStmts(h, yes)), pos + |first|, false,
               [Op(ELSE)] + Braced(CompileStmts(h, no)), pos + |first| + |second|, false);
  }

  lemma {:induction false} DigestElse(h: Host, y: Style, c: Input, pos: nat, no: seq<Stmt>)
    requires WfStyle(y) && Clear(c) && WritableAll(y, no) && At(c, pos, Mark(y, ELSE_WORD) + Group(y, Texts(y, no)))
    requires pos + |Mark(y, ELSE_WORD) + Group(y, Texts(y, no))| < |c| < 0x1_0000_0000_0000_0000
    ensures Goes(h, c, pos, false, [Op(ELSE)] + Braced(CompileStmts(h, no)),
                 pos + |Mark(y, ELSE_WORD) + Group(y, Texts(y, no))|, false)
    decreases no, 1
  {
    hide Texts, WritableAll, Goes, CompileStmts;
    var inner := Texts(y, no);
    AtSplit(c, pos, Mark(y, ELSE_WORD), Group(y, inner));
    WordLine(h, y, c, pos, ELSE_WORD, false);
    var mid := pos + |Mark(y, ELSE_WORD)|;
    GroupParts(y, c, mid, inner);
    hide Group, Mark;
    DigestAll(h, y, c, mid + |Mark(y, [OPEN_BRACE])|, no);
    DigestGroup(h, y, c, mid, inner, false, CompileStmts(h, no));
    GoesThen(h, c, pos, false, [Op(ELSE)], mid, false,
             [Op(BLOCK_START)] + CompileStmts(h, no) + [Op(BLOCK_END)], mid + |Group(y, inner)|, false);
  }

  lemma {:induction false} DigestAll(h: Host, y: Style, c: Input, pos: nat, ss: seq<Stmt>)
    requires WfStyle(y) && Clear(c) && WritableAll(y, ss) && At(c, pos, Texts(y, ss))
    requires pos + |Texts(y, ss)| < |c| < 0x1_0000_0000_0000_0000
    ensures Goes(h, c, pos, false, CompileStmts(h, ss), pos + |Texts(y, ss)|, false)
    decreases ss, 0, 1
  {
    hide Goes, Text, CompileStmt, Writable, Listed, Texts, CompileStmts, WritableAll;
    if ss == [] {
      NothingLeft(h, y, c, pos);
    } else if Listed(ss, y.lists) >= 2 {
      DigestListed(h, y, c, pos, ss);
    } else {
      StmtFirst(h, y, c, pos, ss);
      DigestStmt(h, y, c, pos, ss[0]);
      var mid := pos + |Text(y, ss[0])|;
      DigestAll(h, y, c, mid, ss[1..]);
      GoesThen(h, c, pos, false, CompileStmt(h, ss[0]), mid, false, CompileStmts(h, ss[1..]),
               mid + |Texts(y, ss[1..])|, false);
    }
  }

  lemma NothingLeft(h: Host, y: Style, c: Input, pos: nat)
    ensures Goes(h, c, pos, false, CompileStmts(h, []), pos + |Texts(y, [])|, false)
  {
    hide Goes;
    GoesNowhere(h, c, pos, false);
  }

  /** A list of declarations, and the statements behind it. */
  lemma {:induction false} DigestListed(h: Host, y: Style, c: Input, pos: nat, ss: seq<Stmt>)
    requires WfStyle(y) && Clear(c) && WritableAll(y, ss) && At(c, pos, Texts(y, ss)) && Listed(ss, y.lists) >= 2
    requires pos + |Texts(y, ss)| < |c| < 0x1_0000_0000_0000_0000
    ensures Goes(h, c, pos, false, CompileStmts(h, ss), pos + |Texts(y, ss)|, false)
    decreases ss, 0, 0
  {
    hide Goes, Listed, Texts, CompileStmts, WritableAll;
    var k := Listed(ss, y.lists);
    ListFirst(h, y, c, pos, ss, k);
    var mid := pos + |Texts(y, ss)| - |Texts(y, ss[k..])|;
    DigestAll(h, y, c, mid, ss[k..]);
    GoesThen(h, c, pos, false, CompileStmts(h, ss[..k]), mid, false, CompileStmts(h, ss[k..]),
             mid + |Texts(y, ss[k..])|, false);
  }

  lemma StmtFirst(h: Host, y: Style, c: Input, pos: nat, ss: seq<Stmt>)
    requires ss != [] && WritableAll(y, ss) && Listed(ss, y.lists) < 2 && At(c, pos, Texts(y, ss))
    ensures At(c, pos, Text(y, ss[0])) && At(c, pos + |Text(y, ss[0])|, Texts(y, ss[1..]))
    ensures |Texts(y, ss)| == |Text(y, ss[0])| + |Texts(y, ss[1..])|
    ensures Writable(y, ss[0]) && WritableAll(y, ss[1..])
    ensures CompileStmts(h, ss) == CompileStmt(h, ss[0]) + CompileStmts(h, ss[1..])
  {
    hide Text, Writable, CompileStmt, IsItem;
    AtSplit(c, pos, Text(y, ss[0]), Texts(y, ss[1..]));
  }

  /** The list at the head of the statements. */
  lemma ListFirst(h: Host, y: Style, c: Input, pos: nat, ss: seq<Stmt>, k: nat)
    requires WfStyle(y) && Clear(c) && WritableAll(y, ss) && k == Listed(ss, y.lists) >= 2
    requires At(c, pos, Texts(y, ss)) && pos + |Texts(y, ss)| < |c|
    ensures |Texts(y, ss[k..])| <= |Texts(y, ss)|
    ensures var mid := pos + |Texts(y, ss)| - |Texts(y, ss[k..])|;
            Goes(h, c, pos, false, CompileStmts(h, ss[..k]), mid, false) && At(c, mid, Texts(y, ss[k..]))
    ensures WritableAll(y, ss[k..]) && CompileStmts(h, ss) == CompileStmts(h, ss[..k]) + CompileStmts(h, ss[k..])
  {
    hide Goes, Text, CompileStmt, CompileStmts, Line, Items, Writable, WritableAll, IsItem;
    AllWritable(y, ss);
    CompileStmtsSplit(h, ss, k);
    AtSplit(c, pos, Line(y, VAR_WORD + [SPACE] + Items(y, ss[..k])), Texts(y, ss[k..]));
    forall s | s in ss[..k] ensures IsItem(s) && Writable(y, s) {
      var i :| 0 <= i < k && ss[..k][i] == s;
      assert s == ss[i] && s in ss;
    }
    DigestList(h, y, c, pos, ss[..k]);
  }

  // ----- blocks -----

  /** A list of parameters and the parenthesis behind it. */
  lemma {:induction false} ParamsRead(h: Host, y: Style, c: Input, pos: nat, lead: seq<Byte>, params: seq<Name>)
    requires WfStyle(y) && Blank(lead) && params != [] && (forall x :: x in params ==> TokenName(x) && !Reserved(x))
    requires At(c, pos, lead + ParamText(y, params) + [CLOSE]) && pos + |lead| + |ParamText(y, params)| + 1 < |c|
    ensures Declarations(h, c, pos, true) == Upto(ParamCode(params), pos + |lead| + |ParamText(y, params)| + 1)
    decreases |params|
  {
    hide ReadToken, Assigned, TokenName, Reserved;
    var x, rest := params[0], params[1..];
    var q := pos + |lead| + |x|;
    NameParts(x);
    AtSplit(c, pos, lead + ParamText(y, params), [CLOSE]);
    assert [CLOSE][0] == CLOSE;
    if rest == [] {
      TokenRead(c, pos, lead, x);
      assert ParamCode(params) == [Tok(PARAM, x)] + ParamCode(rest) == [Tok(PARAM, x)];
      assert ParamText(y, params) == x;
      assert Declaration(h, c, pos, true) == Upto(([Tok(PARAM, x)], false), q + 1);
    } else {
      var more := y.ws + ParamText(y, rest) + [CLOSE];
      assert lead + ParamText(y, params) + [CLOSE] == lead + x + [COMMA] + more;
      AtSplit(c, pos, lead + x + [COMMA], more);
      AtSplit(c, pos, lead + x, [COMMA]);
      assert [COMMA][0] == COMMA;
      TokenRead(c, pos, lead, x);
      assert Declaration(h, c, pos, true) == Upto(([Tok(PARAM, x)], true), q + 1);
      ParamsRead(h, y, c, q + 1, y.ws, rest);
    }
  }

  lemma NoParams(h: Host, c: Input, pos: nat)
    requires pos + 1 < |c| && c[pos] == CLOSE && c[pos + 1] == NEWLINE
    ensures Declarations(h, c, pos, true) == Upto([], pos + 1)
  {
    hide ReadToken;
    assert At(c, pos, [] + [CLOSE]);
    TokenRead(c, pos, [], [CLOSE]);
  }

  /** `block `, the name and the opening parenthesis. */
  lemma BlockParts(y: Style, c: Input, pos: nat, d: Def)
    requires WfStyle(y) && WritableDef(y, d) && At(c, pos, BlockLine(y, d)) && pos + |BlockLine(y, d)| < |c|
    ensures var p := pos + |Lead(y)| + 5;
            var q := p + 1 + |d.name|;
            ReadToken(c, pos) == Upto(BLOCK_WORD, p) && c[pos] != NUL && ReadToken(c, p) == Upto(d.name, q) &&
            c[q] == OPEN && At(c, q + 1, ParamText(y, d.fn.params) + [CLOSE]) &&
            q + 1 + |ParamText(y, d.fn.params)| + 2 == pos + |BlockLine(y, d)| &&
            c[q + 1 + |ParamText(y, d.fn.params)| + 1] == BlockEnd(y, d)
  {
    hide ReadToken, ParamText, TokenName, WritableAll, Printable;
    NameParts(d.name);
    var tail := ParamText(y, d.fn.params) + [CLOSE];
    var more := [SPACE] + d.name + ([OPEN] + tail);
    assert BLOCK_WORD + [SPACE] + d.name + [OPEN] + ParamText(y, d.fn.params) + [CLOSE] == BLOCK_WORD + more;
    KeywordRead(y, c, pos, BLOCK_WORD, more, BlockEnd(y, d));
    LineParts(y, c, pos, BLOCK_WORD + more, BlockEnd(y, d));
    var p := pos + |Lead(y)| + 5;
    AtSplit(c, p, [SPACE] + d.name, [OPEN] + tail);
    AtSplit(c, p + 1 + |d.name|, [OPEN], tail);
    assert [OPEN][0] == OPEN && c[p + 1 + |d.name|] == OPEN;
    TokenRead(c, p, [SPACE], d.name);
  }

  lemma DigestBlockLine(h: Host, y: Style, c: Input, pos: nat, d: Def)
    requires WfStyle(y) && Clear(c) && WritableDef(y, d) && At(c, pos, BlockLine(y, d))
    requires pos + |BlockLine(y, d)| < |c|
    ensures |BlockLine(y, d)| >= 1 && c[pos + |BlockLine(y, d)| - 1] == BlockEnd(y, d)
    ensures Goes(h, c, pos, false, [Tok(BLOCK_DEF, d.name), Op(BLOCK_START)] + ParamCode(d.fn.params),
                 pos + |BlockLine(y, d)| - 1, true)
  {
    hide ReadToken, Goes, ExprAt, ExprEnd, CondEnd, Declarations, WritableAll, Printable, TokenName, Line;
    BlockParts(y, c, pos, d);
    var q := pos + |Lead(y)| + 5 + 1 + |d.name|;
    var params := d.fn.params;
    var end := q + 1 + |ParamText(y, params)| + 1;
    if params == [] {
      AtTail(c, q + 1, [] + [CLOSE]);
      NoParams(h, c, q + 1);
    } else {
      assert [] + ParamText(y, params) + [CLOSE] == ParamText(y, params) + [CLOSE];
      ParamsRead(h, y, c, q + 1, [], params);
    }
    hide ParamText;
    var ins := [Tok(BLOCK_DEF, d.name), Op(BLOCK_START)] + ParamCode(params);
    GoesOne(h, c, pos, false, ins, end, true);
  }

  /** A newline or a space in front of a brace makes no difference. */
  lemma GoesToBrace(h: Host, y: Style, c: Input, pos: nat)
    requires WfStyle(y) && Clear(c) && pos < |c| && (c[pos] == NEWLINE || c[pos] == SPACE)
    requires At(c, pos + 1, Mark(y, [OPEN_BRACE])) && pos + 1 + |Mark(y, [OPEN_BRACE])| < |c|
    ensures Goes(h, c, pos, true, [], pos + 1, true)
  {
    hide ReadToken, Declarations, ExprAt, ExprEnd, CondEnd, BlockHead, Lead;
    assert [OPEN_BRACE] + [] == [OPEN_BRACE];
    KeywordRead(y, c, pos + 1, [OPEN_BRACE], [], y.sep);
    if c[pos] == NEWLINE {
      GoesOverNewline(h, c, pos, true);
    } else {
      assert ReadToken(c, pos) == ReadToken(c, pos + 1) by { SpaceSkipped(c, pos); }
      assert Statement(h, c, pos, true) == Statement(h, c, pos + 1, true);
      hide Statement;
      JoinedNone(Digested(h, c, pos + 1, true));
    }
  }

  lemma SpaceSkipped(c: Input, pos: nat)
    requires pos + 1 < |c| && c[pos] == SPACE
    ensures ReadToken(c, pos) == ReadToken(c, pos + 1)
  {
    assert Spaces(c, pos) == Spaces(c, pos + 1);
    hide TokenEnd;
  }

  lemma DigestReturn(h: Host, y: Style, c: Input, pos: nat, ret: Option<Expr>)
    requires WfStyle(y) && (ret.Some? ==> Printable(ret.value)) && At(c, pos, ReturnText(y, ret))
    requires pos + |ReturnText(y, ret)| < |c|
    ensures Goes(h, c, pos, false, ReturnCode(h, ret), pos + |ReturnText(y, ret)|, false)
  {
    hide ReadToken, Goes, ExprAt, ExprEnd, CondEnd, BlockHead, Render, Compile, Printable, Declarations;
    if ret.None? {
      GoesNowhere(h, c, pos, false);
    } else {
      var rest := [SPACE] + Render(ret.value, 0, y.ws);
      assert RETURN_WORD + [SPACE] + Render(ret.value, 0, y.ws) == RETURN_WORD + rest;
      KeywordRead(y, c, pos, RETURN_WORD, rest, NEWLINE);
      LineParts(y, c, pos, RETURN_WORD + rest, NEWLINE);
      ExprRead(h, y, c, pos + |Lead(y)| + 6, [SPACE], ret.value);
      GoesOne(h, c, pos, false, ReturnCode(h, ret), pos + |ReturnText(y, ret)|, false);
    }
  }

  lemma DigestBody(h: Host, y: Style, c: Input, pos: nat, f: Fn)
    requires WfStyle(y) && Clear(c) && WritableAll(y, f.body) && (f.ret.Some? ==> Printable(f.ret.value))
    requires At(c, pos, Texts(y, f.body) + ReturnText(y, f.ret))
    requires pos + |Texts(y, f.body) + ReturnText(y, f.ret)| < |c| < 0x1_0000_0000_0000_0000
    ensures Goes(h, c, pos, false, CompileStmts(h, f.body) + ReturnCode(h, f.ret),
                 pos + |Texts(y, f.body) + ReturnText(y, f.ret)|, false)
  {
    hide Goes, Texts, ReturnText, ReturnCode, CompileStmts;
    AtSplit(c, pos, Texts(y, f.body), ReturnText(y, f.ret));
    DigestAll(h, y, c, pos, f.body);
    var mid := pos + |Texts(y, f.body)|;
    DigestReturn(h, y, c, mid, f.ret);
    GoesThen(h, c, pos, false, CompileStmts(h, f.body), mid, false, ReturnCode(h, f.ret),
             mid + |ReturnText(y, f.ret)|, false);
  }

  lemma DigestDef(h: Host, y: Style, c: Input, pos: nat, d: Def)
    requires WfStyle(y) && Clear(c) && WritableDef(y, d) && At(c, pos, DefText(y, d))
    requires pos + |DefText(y, d)| < |c| < 0x1_0000_0000_0000_0000
    ensures Goes(h, c, pos, false, DefCode(h, d.name, d.fn), pos + |DefText(y, d)|, false)
  {
    hide Goes, Texts, ReturnText, ReturnCode, CompileStmts, ParamCode, Mark;
    var inner := Texts(y, d.fn.body) + ReturnText(y, d.fn.ret);
    var head := [Tok(BLOCK_DEF, d.name), Op(BLOCK_START)] + ParamCode(d.fn.params);
    var body := CompileStmts(h, d.fn.body) + ReturnCode(h, d.fn.ret);
    assert DefText(y, d) == BlockLine(y, d) + Group(y, inner);
    AtSplit(c, pos, BlockLine(y, d), Group(y, inner));
    DigestBlockLine(h, y, c, pos, d);
    hide BlockLine;
    var mid := pos + |BlockLine(y, d)|;
    GroupParts(y, c, mid, inner);
    DigestBody(h, y, c, mid + |Mark(y, [OPEN_BRACE])|, d.fn);
    GoesToBrace(h, y, c, mid - 1);
    GoesThen(h, c, pos, false, head, mid - 1, true, [], mid, true);
    assert head + [] == head;
    DigestGroup(h, y, c, mid, inner, true, body);
    GoesThen(h, c, pos, false, head, mid, true, [] + body + [Op(BLOCK_END)], mid + |Group(y, inner)|, false);
    assert head + ([] + body + [Op(BLOCK_END)]) == DefCode(h, d.name, d.fn);
  }

  lemma {:induction false} DigestDefs(h: Host, y: Style, c: Input, pos: nat, ds: seq<Def>)
    requires WfStyle(y) && Clear(c) && (forall d :: d in ds ==> WritableDef(y, d)) && At(c, pos, DefTexts(y, ds))
    requires pos + |DefTexts(y, ds)| < |c| < 0x1_0000_0000_0000_0000
    ensures Goes(h, c, pos, false, DefsCode(h, ds), pos + |DefTexts(y, ds)|, false)
    decreases |ds|
  {
    hide Goes, DefText, DefCode, WritableDef;
    if ds == [] {
      GoesNowhere(h, c, pos, false);
    } else {
      AtSplit(c, pos, DefText(y, ds[0]), DefTexts(y, ds[1..]));
      DigestDef(h, y, c, pos, ds[0]);
      var mid := pos + |DefText(y, ds[0])|;
      DigestDefs(h, y, c, mid, ds[1..]);
      GoesThen(h, c, pos, false, DefCode(h, ds[0].name, ds[0].fn), mid, false, DefsCode(h, ds[1..]),
               mid + |DefTexts(y, ds[1..])|, false);
    }
  }

  // ----- no zero bytes, no comments, and where backslashes come from -----

  predicate SlashedStmt(s: Stmt)
    decreases s, 1
  {
    match s
    case Declare(_) => false
    case Define(_, e) => Slashed(e)
    case Eval(e) => Slashed(e)
    case If(c, yes) => Slashed(c) || SlashedStmts(yes)
    case IfElse(c, yes, no) => Slashed(c) || SlashedStmts(yes) || SlashedStmts(no)
    case While(c, body) => Slashed(c) || SlashedStmts(body)
  }

  predicate SlashedStmts(ss: seq<Stmt>)
    decreases ss, 0
  {
    ss != [] && (SlashedStmt(ss[0]) || SlashedStmts(ss[1..]))
  }

  predicate SlashedDef(d: Def) {
    SlashedStmts(d.fn.body) || (d.fn.ret.Some? && Slashed(d.fn.ret.value))
  }

  predicate SlashedDefs(ds: seq<Def>) {
    ds != [] && (SlashedDef(ds[0]) || SlashedDefs(ds[1..]))
  }

  /** Some quoted text of the program has a backslash. */
  predicate SlashedSource(src: Source) {
    SlashedDefs(src.defs) || SlashedStmts(src.main)
  }

  lemma LinePiece(y: Style, a: seq<Byte>, t: seq<Byte>, x: bool)
    requires WfStyle(y) && Bare(a) && Piece(t, x)
    ensures Piece(Line(y, a + t), x)
  {
    hide Piece, Lead;
    LeadBlank(y);
    PieceWithin(Lead(y) + a, t, [NEWLINE], x);
    assert Line(y, a + t) == (Lead(y) + a) + t + [NEWLINE];
  }

  lemma BareLine(y: Style, t: seq<Byte>)
    requires WfStyle(y) && Bare(t)
    ensures Bare(Line(y, t)) && Bare(Mark(y, t))
  {
    hide Lead;
    LeadBlank(y);
  }

  lemma MarkPiece(y: Style, a: seq<Byte>, t: seq<Byte>, x: bool)
    requires WfStyle(y) && Bare(a) && Piece(t, x)
    ensures Piece(Mark(y, a + t), x)
  {
    hide Piece, Lead;
    LeadBlank(y);
    PieceWithin(Lead(y) + a, t, [y.sep], x);
    assert Mark(y, a + t) == (Lead(y) + a) + t + [y.sep];
  }

  lemma HeadPiece(y: Style, w: Name, c: Expr)
    requires WfStyle(y) && Printable(c) && AllWord(w)
    ensures Piece(Head(y, w, c), Slashed(c))
  {
    hide Piece, Enclosed, Printable, Mark;
    EnclosedPiece(c, y.ws);
    NameBare(w);
    MarkPiece(y, w + y.gap, Enclosed(c, y.ws), Slashed(c));
    assert (w + y.gap) + Enclosed(c, y.ws) == w + (y.gap + Enclosed(c, y.ws));
  }

  lemma GroupPiece(y: Style, inner: seq<Byte>, x: bool)
    requires WfStyle(y) && Piece(inner, x)
    ensures Piece(Group(y, inner), x)
  {
    hide Piece, Mark;
    BareLine(y, [OPEN_BRACE]);
    BareLine(y, [CLOSE_BRACE]);
    PieceWithin(Mark(y, [OPEN_BRACE]), inner, Mark(y, [CLOSE_BRACE]), x);
  }

  lemma {:induction false} TextPiece(y: Style, s: Stmt)
    requires WfStyle(y) && Writable(y, s)
    ensures Piece(Text(y, s), SlashedStmt(s))
    decreases s, 1
  {
    hide Piece, Render, Printable, OpensExpr, Scannable, Line, Mark, Group, Head, Bare;
    match s
    case Declare(x) => DeclarePiece(y, x);
    case Define(x, e) =>
      RenderPiece(e, 0, y.ws);
      DefineBare(x);
      LinePiece(y, VAR_WORD + [SPACE] + x + [EQUALS], Render(e, 0, y.ws), Slashed(e));
    case Eval(e) =>
      RenderPiece(e, 0, y.ws);
      assert Bare([]) by { NameBare([]); }
      LinePiece(y, [], Render(e, 0, y.ws), Slashed(e));
      assert [] + Render(e, 0, y.ws) == Render(e, 0, y.ws);
    case If(c, yes) => BranchPiece(y, IF_WORD, c, yes);
    case IfElse(c, yes, no) =>
      BranchPiece(y, IF_WORD, c, yes);
      TextsPiece(y, no);
      GroupPiece(y, Texts(y, no), SlashedStmts(no));
      ElseBare(y);
      PieceBetween(Head(y, IF_WORD, c) + Group(y, Texts(y, yes)), Slashed(c) || SlashedStmts(yes), Mark(y, ELSE_WORD),
                   Group(y, Texts(y, no)), SlashedStmts(no));
      var first := Head(y, IF_WORD, c) + Group(y, Texts(y, yes));
      assert Text(y, s) == first + Mark(y, ELSE_WORD) + Group(y, Texts(y, no));
    case While(c, body) => BranchPiece(y, WHILE_WORD, c, body);
  }

  lemma DefineBare(x: Name)
    requires TokenName(x)
    ensures Bare(VAR_WORD + [SPACE] + x + [EQUALS])
  {
    NameBare(x);
  }

  lemma ElseBare(y: Style)
    requires WfStyle(y)
    ensures Bare(Mark(y, ELSE_WORD))
  {
    hide Mark;
    BareLine(y, ELSE_WORD);
  }

  lemma DeclarePiece(y: Style, x: Name)
    requires WfStyle(y) && TokenName(x)
    ensures Piece(Text(y, Declare(x)), false)
  {
    hide Piece, Line;
    NameBare(x);
    BareLine(y, VAR_WORD + [SPACE] + x);
    BarePiece(Line(y, VAR_WORD + [SPACE] + x));
  }

  lemma {:induction false} BranchPiece(y: Style, w: Name, c: Expr, ss: seq<Stmt>)
    requires WfStyle(y) && Printable(c) && (w == IF_WORD || w == WHILE_WORD) && WritableAll(y, ss)
    ensures Piece(Head(y, w, c) + Group(y, Texts(y, ss)), Slashed(c) || SlashedStmts(ss))
    decreases ss, 1
  {
    hide Piece, Head, Group, Texts, Printable, Slashed, SlashedStmts;
    HeadPiece(y, w, c);
    TextsPiece(y, ss);
    GroupPiece(y, Texts(y, ss), SlashedStmts(ss));
    PieceConcat(Head(y, w, c), Slashed(c), Group(y, Texts(y, ss)), SlashedStmts(ss));
  }

  lemma {:induction false} TextsPiece(y: Style, ss: seq<Stmt>)
    requires WfStyle(y) && WritableAll(y, ss)
    ensures Piece(Texts(y, ss), SlashedStmts(ss))
    decreases ss, 0
  {
    hide Text, Writable, Piece, SlashedStmt, IsItem, Items, Line, Bare;
    if ss == [] {
      assert Bare([]) by { NameBare([]); }
      BarePiece([]);
    } else {
      var k := Listed(ss, y.lists);
      AllWritable(y, ss);
      SlashedSplit(ss, k);
      if k >= 2 {
        forall s | s in ss[..k] ensures Writable(y, s) && IsItem(s) {
          var i :| 0 <= i < k && ss[..k][i] == s;
          assert s == ss[i] && s in ss;
        }
        ItemsPiece(y, ss[..k]);
        assert Bare(VAR_WORD + [SPACE]) by { VarBare(); }
        LinePiece(y, VAR_WORD + [SPACE], Items(y, ss[..k]), SlashedStmts(ss[..k]));
        TextsPiece(y, ss[k..]);
        PieceConcat(Line(y, VAR_WORD + [SPACE] + Items(y, ss[..k])), SlashedStmts(ss[..k]),
                    Texts(y, ss[k..]), SlashedStmts(ss[k..]));
      } else {
        TextPiece(y, ss[0]);
        TextsPiece(y, ss[1..]);
        PieceConcat(Text(y, ss[0]), SlashedStmt(ss[0]), Texts(y, ss[1..]), SlashedStmts(ss[1..]));
      }
    }
  }

  lemma VarBare()
    ensures Bare(VAR_WORD + [SPACE])
  {
  }

  lemma {:induction false} SlashedSplit(ss: seq<Stmt>, k: nat)
    requires k <= |ss|
    ensures SlashedStmts(ss) == (SlashedStmts(ss[..k]) || SlashedStmts(ss[k..]))
    decreases k
  {
    hide SlashedStmt;
    if k == 0 {
      assert ss[k..] == ss;
    } else {
      SlashedSplit(ss[1..], k - 1);
      assert ss[..k][1..] == ss[1..][..k - 1] && ss[1..][k - 1..] == ss[k..];
    }
  }

  lemma ItemPiece(y: Style, s: Stmt)
    requires WfStyle(y) && IsItem(s) && Writable(y, s)
    ensures Piece(Item(y, s), SlashedStmt(s))
  {
    hide Piece, Render, Printable, Reserved;
    NameBare(s.x);
    match s
    case Declare(x) => BarePiece(x);
    case Define(x, e) =>
      RenderPiece(e, 0, y.ws);
      PieceWithin(x + [EQUALS], Render(e, 0, y.ws), [], Slashed(e));
      assert x + [EQUALS] + Render(e, 0, y.ws) + [] == Item(y, s);
  }

  lemma {:induction false} ItemsPiece(y: Style, ss: seq<Stmt>)
    requires WfStyle(y) && forall s :: s in ss ==> Writable(y, s) && IsItem(s)
    ensures Piece(Items(y, ss), SlashedStmts(ss))
    decreases |ss|
  {
    hide Piece, Item, Writable, SlashedStmt, IsItem;
    if ss == [] {
      BarePiece([]);
    } else {
      ItemPiece(y, ss[0]);
      if |ss| > 1 {
        ItemsPiece(y, ss[1..]);
        assert Bare([COMMA] + y.ws);
        PieceBetween(Item(y, ss[0]), SlashedStmt(ss[0]), [COMMA] + y.ws, Items(y, ss[1..]), SlashedStmts(ss[1..]));
        assert Items(y, ss) == Item(y, ss[0]) + ([COMMA] + y.ws) + Items(y, ss[1..]);
      } else {
        assert ss[1..] == [];
      }
    }
  }

  lemma {:induction false} ParamsBare(y: Style, params: seq<Name>)
    requires WfStyle(y) && forall x :: x in params ==> TokenName(x)
    ensures Bare(ParamText(y, params))
  {
    if params != [] {
      assert TokenName(params[0]);
      NameBare(params[0]);
      ParamsBare(y, params[1..]);
    }
  }

  lemma ReturnPiece(y: Style, ret: Option<Expr>)
    requires WfStyle(y) && (ret.Some? ==> Printable(ret.value))
    ensures Piece(ReturnText(y, ret), ret.Some? && Slashed(ret.value))
  {
    hide Piece, Render, Printable, Line;
    match ret
    case None => BarePiece([]);
    case Some(e) =>
      RenderPiece(e, 0, y.ws);
      LinePiece(y, RETURN_WORD + [SPACE], Render(e, 0, y.ws), Slashed(e));
  }

  lemma BlockLineIs(y: Style, d: Def)
    ensures var first := BLOCK_WORD + [SPACE] + d.name + [OPEN] + ParamText(y, d.fn.params) + [CLOSE];
            BlockLine(y, d) == if d.fn.params == [] then Line(y, first) else Mark(y, first)
  {
  }

  lemma DefPiece(y: Style, d: Def)
    requires WfStyle(y) && WritableDef(y, d)
    ensures Piece(DefText(y, d), SlashedDef(d))
  {
    hide Piece, Printable, ParamText, Texts, ReturnText, Mark, Group, SlashedStmts, Slashed, BlockLine;
    var first := BLOCK_WORD + [SPACE] + d.name + [OPEN] + ParamText(y, d.fn.params) + [CLOSE];
    ParamsBare(y, d.fn.params);
    NameBare(d.name);
    BareLine(y, first);
    TextsPiece(y, d.fn.body);
    ReturnPiece(y, d.fn.ret);
    var r := d.fn.ret.Some? && Slashed(d.fn.ret.value);
    PieceConcat(Texts(y, d.fn.body), SlashedStmts(d.fn.body), ReturnText(y, d.fn.ret), r);
    GroupPiece(y, Texts(y, d.fn.body) + ReturnText(y, d.fn.ret), SlashedDef(d));
    hide Line;
    assert BlockLine(y, d) == if d.fn.params == [] then Line(y, first) else Mark(y, first) by { BlockLineIs(y, d); }
    BarePiece(BlockLine(y, d));
    PieceConcat(BlockLine(y, d), false, Group(y, Texts(y, d.fn.body) + ReturnText(y, d.fn.ret)), SlashedDef(d));
  }

  lemma {:induction false} DefsPiece(y: Style, ds: seq<Def>)
    requires WfStyle(y) && forall d :: d in ds ==> WritableDef(y, d)
    ensures Piece(DefTexts(y, ds), SlashedDefs(ds))
  {
    hide DefText, WritableDef, Piece, SlashedDef;
    if ds == [] {
      BarePiece([]);
    } else {
      DefPiece(y, ds[0]);
      DefsPiece(y, ds[1..]);
      PieceConcat(DefText(y, ds[0]), SlashedDef(ds[0]), DefTexts(y, ds[1..]), SlashedDefs(ds[1..]));
    }
  }

  lemma SourcePiece(y: Style, src: Source)
    requires WfStyle(y) && WritableSource(y, src)
    ensures Piece(SourceText(y, src), SlashedSource(src))
  {
    hide Piece, Texts, DefTexts, SlashedDefs, SlashedStmts;
    DefsPiece(y, src.defs);
    TextsPiece(y, src.main);
    PieceConcat(DefTexts(y, src.defs), SlashedDefs(src.defs), Texts(y, src.main), SlashedStmts(src.main));
  }

  /** A program written in any style is digested into exactly its own code. */
  lemma SourceRoundTrip(h: Host, y: Style, src: Source)
    requires WfStyle(y) && WritableSource(y, src)
    requires |SourceText(y, src)| + 1 < 0x1_0000_0000_0000_0000
    ensures DigestText(h, SourceText(y, src)) == Ok(ProgramCode(h, src))
  {
    hide Goes, Texts, DefTexts, WritableDef, DefsCode, CompileStmts;
    var t := SourceText(y, src);
    var c: Input := t + [NUL];
    assert At(c, 0, t);
    AtSplit(c, 0, DefTexts(y, src.defs), Texts(y, src.main));
    assert Clear(c) by {
      SourcePiece(y, src);
      forall k | 0 <= k < |c| - 1 ensures c[k] != NUL { assert c[k] == t[k] && t[k] in t; }
    }
    DigestDefs(h, y, c, 0, src.defs);
    var mid := |DefTexts(y, src.defs)|;
    DigestAll(h, y, c, mid, src.main);
    GoesThen(h, c, 0, false, DefsCode(h, src.defs), mid, false, CompileStmts(h, src.main), |t|, false);
    GoesToEnd(h, c, ProgramCode(h, src), |t|);
  }

  lemma GoesToEnd(h: Host, c: Input, ins: seq<Instr>, next: nat)
    requires next < |c| && c[next] == NUL && Goes(h, c, 0, false, ins, next, false)
    ensures Digested(h, c, 0, false) == Upto(ins, next)
  {
    assert Digested(h, c, next, false) == Upto([], next);
    assert ins + [] == ins;
    hide Digested;
  }
}
