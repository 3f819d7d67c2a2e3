/** Writing a tree as text, with parentheses only where the grammar needs them, and reading it back. */
module Rendering {
  import opened Bytes
  import opened Values
  import opened Syntax
  import opened Grammar

  // ----- rendering -----

  /** How tightly a tree binds: 0 for || up to 8 for atoms and parentheses. */
  function Level(e: Expr): (n: nat)
    ensures n <= 8
  {
    match e
    case Bin(op, _, _) => OpLevel(op)
    case Assign(_, _) => 2
    case Minus(_) => 4
    case Bump(_, _) => 4
    case Not(_) => 7
    case _ => 8
  }

  function OpLevel(op: BinOp): (n: nat)
    ensures n <= 6
  {
    match op
    case Or => 0
    case And => 1
    case Eq => 2
    case Ne => 2
    case Lt => 3
    case Le => 3
    case Gt => 3
    case Ge => 3
    case Add => 4
    case Sub => 4
    case Mul => 5
    case Div => 5
    case Mod => 5
    case Pow => 6
  }

  /** `^` groups to the right, comparisons do not group, the rest groups to the left. */
  function LeftLevel(op: BinOp): (n: nat)
    ensures n <= 7
  {
    var k := OpLevel(op);
    if k == 2 || k == 3 || k == 6 then k + 1 else k
  }

  function RightLevel(op: BinOp): (n: nat)
    ensures n <= 7
  {
    if op == Pow then 6 else OpLevel(op) + 1
  }

  function Symbol(op: BinOp): (t: seq<Byte>)
    ensures 1 <= |t| <= 2
  {
    match op
    case Or => [PIPE, PIPE]
    case And => [AMPERSAND, AMPERSAND]
    case Eq => [EQUALS, EQUALS]
    case Ne => [BANG, EQUALS]
    case Lt => [LESS_THAN]
    case Le => [LESS_THAN, EQUALS]
    case Gt => [MORE_THAN]
    case Ge => [MORE_THAN, EQUALS]
    case Add => [PLUS]
    case Sub => [DASH]
    case Mul => [STAR]
    case Div => [SLASH]
    case Mod => [PERCENT]
    case Pow => [CARET]
  }

  /** ws is put around every binary operator, behind every comma and inside every parenthesis. */
  function Render(e: Expr, lvl: nat, ws: seq<Byte>): (t: seq<Byte>)
    decreases e, 3
  {
    if Level(e) < lvl then Enclosed(e, ws) else Body(e, ws)
  }

  function Enclosed(e: Expr, ws: seq<Byte>): (t: seq<Byte>)
    decreases e, 2
  {
    [OPEN] + ws + Body(e, ws) + ws + [CLOSE]
  }

  function Body(e: Expr, ws: seq<Byte>): (t: seq<Byte>)
    decreases e, 1
  {
    match e
    case Number(t) => t
    case Quoted(t) => [QUOTE] + t + [QUOTE]
    case Void => [UNDERSCORE]
    case Ref(x) => x
    case Bin(op, l, r) => Render(l, LeftLevel(op), ws) + ws + Symbol(op) + ws + Render(r, RightLevel(op), ws)
    case Assign(l, r) => Render(l, 3, ws) + ws + [EQUALS] + ws + Render(r, 3, ws)
    case Minus(a) => [DASH] + Render(a, 5, ws)
    case Bump(up, a) => (if up then [PLUS, PLUS] else [DASH, DASH]) + Render(a, 5, ws)
    case Not(a) => [BANG] + Render(a, 8, ws)
    case Call(f, args) => f + [OPEN] + RenderArgs(args, ws) + [CLOSE]
    case Foreign(lib, fn, args) => lib + [COLON, COLON] + fn + [OPEN] + RenderArgs(args, ws) + [CLOSE]
    case Print(a) => PRINT_NAME + [OPEN] + Render(a, 0, ws) + [CLOSE]
    case Microtime => MICROTIME_NAME + [OPEN] + [CLOSE]
    case _ => []
  }

  function RenderArgs(args: seq<Expr>, ws: seq<Byte>): (t: seq<Byte>)
    decreases args, 0
  {
    if args == [] then []
    else if |args| == 1 then Render(args[0], 4, ws)
    else Render(args[0], 4, ws) + [COMMA] + ws + RenderArgs(args[1..], ws)
  }

  // ----- what can be rendered -----

  predicate Blank(ws: seq<Byte>) {
    forall b :: b in ws ==> IsSpace(b)
  }

  predicate AllWord(t: seq<Byte>) {
    forall b :: b in t ==> IsWord(b)
  }

  predicate IsName(x: Name) {
    x != [] && AllWord(x) && (IsAlpha(x[0]) || x[0] == UNDERSCORE)
  }

  /** A number as a whole, which cannot swallow a sign that follows it. */
  predicate IsNumber(t: seq<Byte>) {
    t != [] && 0 !in t && (IsDigit(t[0]) || t[0] == DOT) && NumberEnd(t + [0], 0) == |t| &&
    (IsDigit(t[|t| - 1]) || t[|t| - 1] == DOT)
  }

  predicate Printable(e: Expr)
    decreases e, 1
  {
    match e
    case Number(t) => IsNumber(t)
    case Quoted(t) => QUOTE !in t && 0 !in t
    case Void => true
    case Ref(x) => IsName(x) && x != [UNDERSCORE]
    case Bin(_, l, r) => Printable(l) && Printable(r)
    case Assign(l, r) => Printable(l) && Printable(r)
    case Minus(a) => Printable(a)
    case Bump(_, a) => Printable(a)
    case Not(a) => Printable(a)
    case Call(f, args) => IsName(f) && f != PRINT_NAME && f != MICROTIME_NAME && |args| <= 16 && PrintableAll(args)
    case Foreign(lib, fn, args) => IsName(lib) && AllWord(fn) && |args| <= 16 && PrintableAll(args)
    case Print(a) => Printable(a)
    case Microtime => true
    case _ => false
  }

  predicate PrintableAll(args: seq<Expr>)
    decreases args, 0
  {
    args == [] || (Printable(args[0]) && PrintableAll(args[1..]))
  }

  // ----- what may follow -----

  /** The character does not continue an expression of this level. */
  predicate Stops(lvl: nat, c: Byte) {
    (lvl <= 6 ==> c != CARET) &&
    (lvl <= 5 ==> c != STAR && c != SLASH && c != PERCENT) &&
    (lvl <= 4 ==> !IsSign(c)) &&
    (lvl <= 3 ==> c != LESS_THAN && c != MORE_THAN) &&
    (lvl <= 2 ==> c != EQUALS && c != BANG) &&
    (lvl <= 1 ==> c != AMPERSAND) &&
    (lvl <= 0 ==> c != PIPE)
  }

  /** The character does not continue a name or a number. */
  predicate EndsAtom(c: Byte) {
    !IsWord(c) && c != OPEN && c != OPEN_SQUARE && c != COLON
  }

  /** Levels whose operators group to the left keep reading operators of their own level. */
  predicate Loops(lvl: nat) {
    lvl == 0 || lvl == 1 || lvl == 4 || lvl == 5
  }

  predicate Follows(lvl: nat, s: Input, q: nat) {
    q < |s| && EndsAtom(s[q]) && Stops(if Loops(lvl) then lvl + 1 else lvl, s[Spaces(s, q)])
  }

  predicate Starts(lvl: nat, c: Byte) {
    !IsSpace(c) && c != 0 && c != EQUALS && c != CLOSE && c != COMMA && (lvl >= 5 ==> !IsSign(c)) &&
        (lvl >= 8 ==> c != BANG)
  }

  // ----- reading back -----

  function ParseAt(lvl: nat, s: Input, pos: nat): (r: Parsed<Expr>)
    requires pos < |s|
    ensures r.Good? ==> pos < r.pos < |s|
  {
    if lvl == 0 then Disjunction(s, pos)
    else if lvl == 1 then Conjunction(s, pos)
    else if lvl == 2 then Equality(s, pos)
    else if lvl == 3 then Comparison(s, pos)
    else if lvl == 4 then Sum(s, pos)
    else if lvl == 5 then Product(s, pos)
    else if lvl == 6 then Power(s, pos)
    else if lvl == 7 then Unary(s, pos)
    else Paren(s, pos)
  }

  /** What the reader of a level does once e has been read up to p. */
  function Finish(lvl: nat, s: Input, p: nat, e: Expr): (r: Parsed<Expr>)
    requires p < |s|
  {
    if lvl == 0 then DisjunctionRest(s, p, e)
    else if lvl == 1 then ConjunctionRest(s, p, e)
    else if lvl == 4 then SumRest(s, p, e)
    else if lvl == 5 then ProductRest(s, p, e)
    else Good(e, p)
  }

  lemma FinishStops(lvl: nat, s: Input, p: nat, e: Expr)
    requires p < |s| && Stops(lvl, s[p])
    ensures Finish(lvl, s, p, e) == Good(e, p)
  {
  }

  lemma SpacesAt(s: Input, pos: nat, ws: seq<Byte>)
    requires At(s, pos, ws) && Blank(ws) && pos + |ws| < |s| && !IsSpace(s[pos + |ws|])
    ensures Spaces(s, pos) == pos + |ws|
    decreases |ws|
  {
    if ws != [] {
      assert ws[0] in ws;
      assert At(s, pos + 1, ws[1..]) by {
        forall k | 0 <= k < |ws[1..]| ensures s[pos + 1 + k] == ws[1..][k] { assert ws[k + 1] == s[pos + (k + 1)]; }
      }
      SpacesAt(s, pos + 1, ws[1..]);
    }
  }

  lemma {:induction false} WordAt(s: Input, pos: nat, x: Name)
    requires At(s, pos, x) && AllWord(x) && pos + |x| < |s| && !IsWord(s[pos + |x|])
    ensures Word(s, pos) == pos + |x| && s[pos..pos + |x|] == x
    decreases |x|
  {
    if x != [] {
      assert x[0] in x;
      assert At(s, pos + 1, x[1..]) by {
        forall k | 0 <= k < |x[1..]| ensures s[pos + 1 + k] == x[1..][k] { assert x[k + 1] == s[pos + (k + 1)]; }
      }
      WordAt(s, pos + 1, x[1..]);
    }
    AtSlice(s, pos, x);
  }

  /** A tighter reader's result passes through every looser reader that finds nothing to add. */
  lemma Loosen(lvl: nat, s: Input, pos: nat, p: nat, e: Expr)
    requires lvl < 8 && pos < p < |s| && Starts(lvl + 1, s[pos])
    requires ParseAt(lvl + 1, s, pos) == Good(e, p)
    requires Stops(if Loops(lvl) then lvl + 1 else lvl, s[p]) && !IsSpace(s[p])
    ensures ParseAt(lvl, s, pos) == Finish(lvl, s, p, e)
  {
    assert Spaces(s, pos) == pos && Spaces(s, p) == p;
    if lvl == 6 { assert PowerRest(s, p, e) == Good(e, p); }
  }

  lemma {:induction false} LoosenTo(k: nat, lvl: nat, s: Input, pos: nat, p: nat, e: Expr)
    requires lvl < k <= 8 && pos < p < |s| && Starts(k, s[pos])
    requires ParseAt(k, s, pos) == Good(e, p)
    requires Stops(if Loops(lvl) then lvl + 1 else lvl, s[p]) && !IsSpace(s[p])
    ensures ParseAt(lvl, s, pos) == Finish(lvl, s, p, e)
    decreases k
  {
    if k == lvl + 1 {
      Loosen(lvl, s, pos, p, e);
    } else {
      Loosen(k - 1, s, pos, p, e);
      FinishStops(k - 1, s, p, e);
      LoosenTo(k - 1, lvl, s, pos, p, e);
    }
  }

  // ----- binary operators -----

  /** The left operand l has been read up to the operator at m, the right one from r0 to p. */
  lemma Combine(op: BinOp, s: Input, pos: nat, m: nat, r0: nat, p: nat, l: Expr, r: Expr)
    requires pos < m && m + |Symbol(op)| <= r0 < p < |s| && Starts(LeftLevel(op), s[pos])
    requires At(s, m, Symbol(op)) && Spaces(s, m + |Symbol(op)|) == r0
    requires ParseAt(LeftLevel(op), s, pos) == Finish(LeftLevel(op), s, m, l)
    requires ParseAt(RightLevel(op), s, r0) == Good(r, p)
    requires op == Pow ==> !IsSign(s[r0])
    requires s[m + |Symbol(op)|] != EQUALS
    requires Stops(if Loops(OpLevel(op)) then OpLevel(op) + 1 else OpLevel(op), s[p])
    ensures ParseAt(OpLevel(op), s, pos) == Finish(OpLevel(op), s, p, Bin(op, l, r))
  {
    hide Disjunction, Conjunction, Equality, Comparison, Sum, Product, Power, Unary, Paren, DisjunctionRest,
         ConjunctionRest, SumRest, ProductRest;
    assert s[m] == Symbol(op)[0];
    assert |Symbol(op)| == 2 ==> s[m + 1] == Symbol(op)[1];
    assert Spaces(s, pos) == pos;
    var k := OpLevel(op);
    if k == 0 { CombineOr(s, pos, m, r0, p, l, r); }
    else if k == 1 { CombineAnd(s, pos, m, r0, p, l, r); }
    else if k == 2 { CombineEquality(op, s, pos, m, r0, p, l, r); }
    else if k == 3 { CombineComparison(op, s, pos, m, r0, p, l, r); }
    else if k == 4 { CombineSum(op, s, pos, m, r0, p, l, r); }
    else if k == 5 { CombineProduct(op, s, pos, m, r0, p, l, r); }
    else { CombinePower(s, pos, m, r0, p, l, r); }
  }

  lemma CombineOr(s: Input, pos: nat, m: nat, r0: nat, p: nat, l: Expr, r: Expr)
    requires pos < m && m + 2 <= r0 < p < |s| && s[m] == PIPE && s[m + 1] == PIPE && Spaces(s, m + 2) == r0
    requires Disjunction(s, pos) == DisjunctionRest(s, m, l) && Conjunction(s, r0) == Good(r, p)
    ensures Disjunction(s, pos) == DisjunctionRest(s, p, Bin(Or, l, r))
  {
    hide Disjunction, Conjunction;
  }

  lemma CombineAnd(s: Input, pos: nat, m: nat, r0: nat, p: nat, l: Expr, r: Expr)
    requires pos < m && m + 2 <= r0 < p < |s| && s[m] == AMPERSAND && s[m + 1] == AMPERSAND && Spaces(s, m + 2) == r0
    requires Conjunction(s, pos) == ConjunctionRest(s, m, l) && Equality(s, r0) == Good(r, p)
    ensures Conjunction(s, pos) == ConjunctionRest(s, p, Bin(And, l, r))
  {
    hide Conjunction, Equality;
  }

  lemma CombineEquality(op: BinOp, s: Input, pos: nat, m: nat, r0: nat, p: nat, l: Expr, r: Expr)
    requires op == Eq || op == Ne
    requires pos < m && m + 2 <= r0 < p < |s| && At(s, m, Symbol(op)) && Spaces(s, m + 2) == r0 && Spaces(s, pos) == pos
    requires Comparison(s, pos) == Good(l, m) && Comparison(s, r0) == Good(r, p)
    ensures Equality(s, pos) == Good(Bin(op, l, r), p)
  {
    hide Comparison;
    assert s[m] == Symbol(op)[0] && s[m + 1] == Symbol(op)[1];
  }

  lemma CombineComparison(op: BinOp, s: Input, pos: nat, m: nat, r0: nat, p: nat, l: Expr, r: Expr)
    requires OpLevel(op) == 3
    requires pos < m && m + |Symbol(op)| <= r0 < p < |s| && At(s, m, Symbol(op)) && Spaces(s, pos) == pos
    requires Spaces(s, m + |Symbol(op)|) == r0 && s[m + |Symbol(op)|] != EQUALS
    requires Sum(s, pos) == SumRest(s, m, l) && Sum(s, r0) == Good(r, p)
    ensures Comparison(s, pos) == Good(Bin(op, l, r), p)
  {
    hide Sum;
    assert s[m] == Symbol(op)[0];
    assert |Symbol(op)| == 2 ==> s[m + 1] == Symbol(op)[1];
    assert SumRest(s, m, l) == Good(l, m);
  }

  lemma CombineSum(op: BinOp, s: Input, pos: nat, m: nat, r0: nat, p: nat, l: Expr, r: Expr)
    requires OpLevel(op) == 4
    requires pos < m && m + 1 <= r0 < p < |s| && s[m] == Symbol(op)[0] && Spaces(s, m + 1) == r0
    requires Sum(s, pos) == SumRest(s, m, l) && Product(s, r0) == Good(r, p)
    ensures Sum(s, pos) == SumRest(s, p, Bin(op, l, r))
  {
    hide Sum, Product;
  }

  lemma CombineProduct(op: BinOp, s: Input, pos: nat, m: nat, r0: nat, p: nat, l: Expr, r: Expr)
    requires OpLevel(op) == 5
    requires pos < m && m + 1 <= r0 < p < |s| && s[m] == Symbol(op)[0] && Spaces(s, m + 1) == r0
    requires Product(s, pos) == ProductRest(s, m, l) && Power(s, r0) == Good(r, p)
    ensures Product(s, pos) == ProductRest(s, p, Bin(op, l, r))
  {
    hide Product, Power;
  }

  lemma CombinePower(s: Input, pos: nat, m: nat, r0: nat, p: nat, l: Expr, r: Expr)
    requires pos < m && m + 1 <= r0 < p < |s| && s[m] == CARET && Spaces(s, m + 1) == r0 && s[r0] != DASH
    requires Unary(s, pos) == Good(l, m) && Power(s, r0) == Good(r, p) && s[p] != CARET
    ensures Power(s, pos) == Good(Bin(Pow, l, r), p)
  {
    hide Unary;
    assert PowerRest(s, p, Bin(Pow, l, r)) == Good(Bin(Pow, l, r), p);
    assert PowerRest(s, m, l) == PowerRest(s, p, Bin(Pow, l, r));
  }

  // ----- atoms -----

  lemma {:induction false} DigitsShift(s: Input, pos: nat, t: seq<Byte>, i: nat)
    requires At(s, pos, t) && i <= |t| && pos + |t| < |s| && !IsDigit(s[pos + |t|])
    ensures Digits(s, pos + i) == pos + Digits(t + [0], i)
    decreases |t| - i
  {
    if i < |t| {
      assert s[pos + i] == t[i] == (t + [0])[i];
      DigitsShift(s, pos, t, i + 1);
    }
  }

  /** Stepping over an optional character of the token, or stopping at its end. */
  lemma OptionalShift(s: Input, pos: nat, t: seq<Byte>, i: nat, present: bool)
    requires At(s, pos, t) && i <= |t| && pos + |t| < |s| && (present ==> i < |t|) && 0 !in t
    ensures present ==> s[pos + i] != 0 && (t + [0])[i] != 0
    ensures Optional(s, pos + i, present) == pos + Optional(t + [0], i, present)
    ensures Optional(t + [0], i, present) <= |t|
  {
    if present { assert t[i] in t && s[pos + i] == t[i]; }
  }

  /** The position behind the digits, the point and the digits after it. */
  function Mantissa(s: Input, pos: nat): (r: nat)
    requires pos < |s|
    ensures pos <= r < |s|
  {
    var p1 := Digits(s, pos);
    Digits(s, Optional(s, p1, s[p1] == DOT))
  }

  ghost predicate Token(s: Input, pos: nat, t: seq<Byte>) {
    At(s, pos, t) && 0 !in t && pos + |t| < |s| && !IsDigit(s[pos + |t|]) && s[pos + |t|] != DOT
  }

  lemma TokenChar(s: Input, pos: nat, t: seq<Byte>, i: nat)
    requires Token(s, pos, t) && i < |t|
    ensures s[pos + i] == t[i] == (t + [0])[i] && t[i] != 0
  {
    assert t[i] in t;
  }

  lemma MantissaShift(s: Input, pos: nat, t: seq<Byte>)
    requires Token(s, pos, t)
    ensures Mantissa(s, pos) == pos + Mantissa(t + [0], 0)
  {
    hide Digits, Optional;
    var u: Input := t + [0];
    DigitsShift(s, pos, t, 0);
    var p1 := Digits(u, 0);
    if p1 < |t| { TokenChar(s, pos, t, p1); }
    hide Token;
    OptionalShift(s, pos, t, p1, u[p1] == DOT);
    DigitsShift(s, pos, t, Optional(u, p1, u[p1] == DOT));
  }

  lemma ExponentShift(s: Input, pos: nat, t: seq<Byte>, i: nat)
    requires Token(s, pos, t) && t != [] && i <= |t| && !IsExponent(t[|t| - 1]) && !IsExponent(s[pos + |t|])
    ensures Exponent(s, pos + i) == pos + Exponent(t + [0], i) && Exponent(t + [0], i) <= |t|
  {
    hide Optional;
    var u: Input := t + [0];
    if i < |t| {
      TokenChar(s, pos, t, i);
      if IsExponent(u[i]) {
        TokenChar(s, pos, t, i + 1);
        OptionalShift(s, pos, t, i + 1, IsSign(u[i + 1]));
      }
    }
  }

  predicate IsExponent(b: Byte) {
    b == 101 || b == 69
  }

  lemma NumberAt(s: Input, pos: nat, t: seq<Byte>)
    requires At(s, pos, t) && IsNumber(t) && pos + |t| < |s| && EndsAtom(s[pos + |t|])
    ensures NumberEnd(s, pos) == pos + |t| && s[pos..pos + |t|] == t
  {
    hide Digits, Exponent;
    var u: Input := t + [0];
    assert Token(s, pos, t);
    TokenChar(s, pos, t, 0);
    AtSlice(s, pos, t);
    assert NumberEnd(s, pos) == Digits(s, Exponent(s, Mantissa(s, pos)));
    assert NumberEnd(u, 0) == Digits(u, Exponent(u, Mantissa(u, 0)));
    MantissaShift(s, pos, t);
    hide Mantissa, NumberEnd;
    var p := Mantissa(u, 0);
    ExponentShift(s, pos, t, p);
    DigitsShift(s, pos, t, Exponent(u, p));
  }

  lemma {:induction false} ClosingAt(s: Input, pos: nat, t: seq<Byte>)
    requires At(s, pos, t) && QUOTE !in t && pos + |t| < |s| && s[pos + |t|] == QUOTE
    ensures Closing(s, pos) == Good((), pos + |t|)
    decreases |t|
  {
    if t != [] {
      assert s[pos] == t[0];
      AtSplit(s, pos, [t[0]], t[1..]);
      assert [t[0]] + t[1..] == t;
      ClosingAt(s, pos + 1, t[1..]);
    }
  }

  lemma ReadNumber(e: Expr, s: Input, pos: nat, ws: seq<Byte>)
    requires e.Number? && Printable(e) && At(s, pos, Body(e, ws)) && Follows(8, s, pos + |Body(e, ws)|)
    ensures Body(e, ws) != [] && Starts(8, s[pos]) && Paren(s, pos) == Good(e, Spaces(s, pos + |Body(e, ws)|))
  {
    hide NumberEnd;
    var t := e.token;
    assert s[pos] == t[0];
    NumberAt(s, pos, t);
    var p := Spaces(s, pos + |t|);
    assert Spaces(s, p) == p;
    assert Literal(s, pos) == Good(e, p);
    assert Atom(s, pos) == Good(e, p);
  }

  lemma ReadQuoted(e: Expr, s: Input, pos: nat, ws: seq<Byte>)
    requires e.Quoted? && Printable(e) && At(s, pos, Body(e, ws)) && Follows(8, s, pos + |Body(e, ws)|)
    ensures Body(e, ws) != [] && Starts(8, s[pos]) && Paren(s, pos) == Good(e, Spaces(s, pos + |Body(e, ws)|))
  {
    hide NumberEnd, Closing;
    var t := Body(e, ws);
    AtSplit(s, pos, [QUOTE] + e.text, [QUOTE]);
    AtSplit(s, pos, [QUOTE], e.text);
    assert [QUOTE][0] == QUOTE;
    assert s[pos] == QUOTE && s[pos + 1 + |e.text|] == QUOTE;
    ClosingAt(s, pos + 1, e.text);
    AtSlice(s, pos + 1, e.text);
    assert Literal(s, pos) == Good(e, pos + |t|);
    assert Atom(s, pos) == Good(e, Spaces(s, pos + |t|));
  }

  lemma ReadName(e: Expr, s: Input, pos: nat, ws: seq<Byte>)
    requires (e.Ref? || e.Void?) && Printable(e) && At(s, pos, Body(e, ws)) && Follows(8, s, pos + |Body(e, ws)|)
    ensures Body(e, ws) != [] && Starts(8, s[pos]) && Paren(s, pos) == Good(e, Spaces(s, pos + |Body(e, ws)|))
  {
    var x := Body(e, ws);
    assert s[pos] == x[0];
    assert AllWord(x);
    WordAt(s, pos, x);
  }

  lemma StartsTighter(k: nat, lvl: nat, c: Byte)
    requires lvl <= k && Starts(k, c)
    ensures Starts(lvl, c)
  {
  }

  lemma FollowsTighter(lvl: nat, k: nat, s: Input, q: nat)
    requires lvl <= k <= 8 && Follows(lvl, s, q)
    ensures Follows(k, s, q) && (lvl < k ==> Stops(k, s[Spaces(s, q)]))
  {
  }

  /** White space and then a character that ends expressions. */
  lemma FollowsBefore(lvl: nat, s: Input, q: nat, ws: seq<Byte>)
    requires At(s, q, ws) && Blank(ws) && q + |ws| < |s|
    requires !IsSpace(s[q + |ws|]) && EndsAtom(s[q + |ws|]) && Stops(if Loops(lvl) then lvl + 1 else lvl, s[q + |ws|])
    ensures Follows(lvl, s, q) && Spaces(s, q) == q + |ws|
  {
    SpacesAt(s, q, ws);
    if ws != [] { assert ws[0] in ws && s[q] == ws[0]; }
  }

  // ----- trees -----

  /** The rendering of a tree, read at its level, gives the tree back. */
  ghost predicate ReadsBack(e: Expr, lvl: nat, s: Input, pos: nat, q: nat)
    requires pos < q < |s|
  {
    Starts(lvl, s[pos]) && ParseAt(lvl, s, pos) == Finish(lvl, s, Spaces(s, q), e)
  }

  lemma FollowsWithin(lvl: nat, s: Input, q: nat)
    requires Follows(lvl, s, q)
    ensures q < |s| && Stops(if Loops(lvl) then lvl + 1 else lvl, s[Spaces(s, q)])
  {
  }

  lemma {:induction false} ReadRender(e: Expr, lvl: nat, s: Input, pos: nat, ws: seq<Byte>)
    requires lvl <= 8 && Printable(e) && Blank(ws) && At(s, pos, Render(e, lvl, ws))
    requires Follows(lvl, s, pos + |Render(e, lvl, ws)|)
    ensures Render(e, lvl, ws) != [] && ReadsBack(e, lvl, s, pos, pos + |Render(e, lvl, ws)|)
    decreases e, if Level(e) < lvl then 7 else 5
  {
    hide ParseAt, Finish, Stops, Starts, Follows, Enclosed, Body, Printable, Blank, At;
    var q := pos + |Render(e, lvl, ws)|;
    FollowsWithin(lvl, s, q);
    var p := Spaces(s, q);
    if Level(e) < lvl {
      ReadParenthesized(e, s, pos, ws);
      FollowsTighter(lvl, 8, s, q);
      if lvl < 8 {
        LoosenTo(8, lvl, s, pos, p, e);
        StartsTighter(8, lvl, s[pos]);
      } else {
        FinishStops8(s, p, e);
      }
    } else {
      FollowsTighter(lvl, Level(e), s, q);
      ReadBody(e, s, pos, ws);
      if lvl < Level(e) {
        FinishStops(Level(e), s, p, e);
        LoosenTo(Level(e), lvl, s, pos, p, e);
        StartsTighter(Level(e), lvl, s[pos]);
      }
    }
  }

  lemma FinishStops8(s: Input, p: nat, e: Expr)
    requires p < |s|
    ensures Finish(8, s, p, e) == Good(e, p)
  {
  }

  lemma EnclosedParts(e: Expr, s: Input, pos: nat, ws: seq<Byte>)
    requires At(s, pos, Enclosed(e, ws))
    ensures var b, body := pos + 1 + |ws|, Render(e, 0, ws);
            s[pos] == OPEN && At(s, pos + 1, ws) && At(s, b, body) && At(s, b + |body|, ws) &&
            s[b + |body| + |ws|] == CLOSE && |Enclosed(e, ws)| == 2 + 2 * |ws| + |body|
  {
    hide Body;
    var body := Body(e, ws);
    AtSplit(s, pos, [OPEN] + ws + body + ws, [CLOSE]);
    AtSplit(s, pos, [OPEN] + ws + body, ws);
    AtSplit(s, pos, [OPEN] + ws, body);
    AtSplit(s, pos, [OPEN], ws);
    assert [OPEN][0] == OPEN && [CLOSE][0] == CLOSE;
  }

  lemma {:induction false} ReadParenthesized(e: Expr, s: Input, pos: nat, ws: seq<Byte>)
    requires Printable(e) && Blank(ws) && At(s, pos, Enclosed(e, ws)) && pos + |Enclosed(e, ws)| < |s|
    ensures Enclosed(e, ws) != []
    ensures Starts(8, s[pos]) && ParseAt(8, s, pos) == Good(e, Spaces(s, pos + |Enclosed(e, ws)|))
    decreases e, 6
  {
    hide Finish, Body, Disjunction, Enclosed, Render, At, Printable, Blank;
    EnclosedParts(e, s, pos, ws);
    var b := pos + 1 + |ws|;
    var q := b + |Render(e, 0, ws)|;
    FollowsBefore(0, s, q, ws);
    ReadRender(e, 0, s, b, ws);
    SpacesAt(s, pos + 1, ws);
    FinishStops(0, s, q + |ws|, e);
    assert Disjunction(s, b) == Good(e, q + |ws|);
  }

  lemma {:induction false} ReadBody(e: Expr, s: Input, pos: nat, ws: seq<Byte>)
    requires Printable(e) && Blank(ws) && At(s, pos, Body(e, ws)) && Follows(Level(e), s, pos + |Body(e, ws)|)
    ensures Body(e, ws) != [] && ReadsBack(e, Level(e), s, pos, pos + |Body(e, ws)|)
    decreases e, 4
  {
    hide ParseAt, Finish, Stops, Follows, Starts;
    if e.Bin? {
      ReadBin(e, s, pos, ws);
    } else if e.Assign? {
      ReadAssign(e, s, pos, ws);
    } else if e.Minus? || e.Bump? {
      ReadSigned(e, s, pos, ws);
    } else if e.Not? {
      ReadNot(e, s, pos, ws);
    } else {
      if e.Number? {
        ReadNumber(e, s, pos, ws);
      } else if e.Quoted? {
        ReadQuoted(e, s, pos, ws);
      } else if e.Ref? || e.Void? {
        ReadName(e, s, pos, ws);
      } else {
        ReadApplied(e, s, pos, ws);
      }
      AtomRead(e, s, pos, Spaces(s, pos + |Body(e, ws)|));
    }
  }

  lemma AtomRead(e: Expr, s: Input, pos: nat, p: nat)
    requires pos < |s| && p < |s| && Paren(s, pos) == Good(e, p)
    ensures ParseAt(8, s, pos) == Finish(8, s, p, e)
  {
  }

  lemma SymbolFits(op: BinOp)
    ensures var c, k := Symbol(op)[0], LeftLevel(op);
            !IsSpace(c) && EndsAtom(c) && Stops(if Loops(k) then k + 1 else k, c)
    ensures OpLevel(op) <= LeftLevel(op) && (op == Pow ==> RightLevel(op) >= 5)
  {
  }

  lemma RightFollows(op: BinOp, s: Input, q: nat)
    requires Follows(OpLevel(op), s, q)
    ensures Follows(RightLevel(op), s, q) && Stops(RightLevel(op), s[Spaces(s, q)])
  {
  }

  lemma FirstAfter(ws: seq<Byte>, s: Input, m: nat)
    requires At(s, m, ws) && Blank(ws) && m + |ws| < |s| && s[m + |ws|] != EQUALS
    ensures s[m] != EQUALS
  {
    if ws != [] { assert ws[0] in ws && s[m] == ws[0]; }
  }

  /** Two operands around a symbol, with white space on both sides of it. */
  lemma Split5(s: Input, pos: nat, l: seq<Byte>, ws: seq<Byte>, sym: seq<Byte>, r: seq<Byte>)
    requires At(s, pos, l + ws + sym + ws + r)
    ensures var m := pos + |l| + |ws|;
            At(s, pos, l) && At(s, pos + |l|, ws) && At(s, m, sym) && At(s, m + |sym|, ws) &&
            At(s, m + |sym| + |ws|, r)
  {
    AtSplit(s, pos, l + ws + sym + ws, r);
    AtSplit(s, pos, l + ws + sym, ws);
    AtSplit(s, pos, l + ws, sym);
    AtSplit(s, pos, l, ws);
  }

  /** Where the operands and the symbol of a binary tree stand in its text. */
  lemma BinParts(e: Expr, s: Input, pos: nat, ws: seq<Byte>)
    requires e.Bin? && Blank(ws) && At(s, pos, Body(e, ws)) && pos + |Body(e, ws)| < |s|
    ensures var op, sym := e.op, Symbol(e.op);
            var l, r := Render(e.l, LeftLevel(op), ws), Render(e.r, RightLevel(op), ws);
            var m := pos + |l| + |ws|;
            At(s, pos, l) && At(s, pos + |l|, ws) && At(s, m, sym) && At(s, m + |sym|, ws) &&
            At(s, m + |sym| + |ws|, r) && m + |sym| + |ws| + |r| == pos + |Body(e, ws)| && s[m] == sym[0]
  {
    hide Render, Symbol;
    var op := e.op;
    Split5(s, pos, Render(e.l, LeftLevel(op), ws), ws, Symbol(op), Render(e.r, RightLevel(op), ws));
  }

  lemma {:induction false} ReadBin(e: Expr, s: Input, pos: nat, ws: seq<Byte>)
    requires e.Bin?
    requires Printable(e) && Blank(ws) && At(s, pos, Body(e, ws)) && Follows(Level(e), s, pos + |Body(e, ws)|)
    ensures Body(e, ws) != [] && ReadsBack(e, Level(e), s, pos, pos + |Body(e, ws)|)
    decreases e, 3
  {
    hide ParseAt, Finish, Stops, Follows, Starts, Render, At, Body, EndsAtom, Symbol, OpLevel, LeftLevel, RightLevel;
    var op, l, r := e.op, e.l, e.r;
    FollowsWithin(OpLevel(op), s, pos + |Body(e, ws)|);
    BinParts(e, s, pos, ws);
    var left, sym := Render(l, LeftLevel(op), ws), Symbol(op);
    var m := pos + |left| + |ws|;
    var r0, q := m + |sym| + |ws|, pos + |Body(e, ws)|;
    SymbolFits(op);
    FollowsBefore(LeftLevel(op), s, pos + |left|, ws);
    ReadRender(l, LeftLevel(op), s, pos, ws);
    RightFollows(op, s, q);
    ReadRender(r, RightLevel(op), s, r0, ws);
    FinishStops(RightLevel(op), s, Spaces(s, q), r);
    StartsPlain(RightLevel(op), s[r0]);
    SpacesAt(s, m + |sym|, ws);
    FirstAfter(ws, s, m + |sym|);
    Combine(op, s, pos, m, r0, Spaces(s, q), l, r);
    StartsTighter(LeftLevel(op), OpLevel(op), s[pos]);
  }

  lemma StartsPlain(lvl: nat, c: Byte)
    requires Starts(lvl, c)
    ensures !IsSpace(c) && c != 0 && c != EQUALS && c != CLOSE && c != COMMA
    ensures lvl >= 5 ==> !IsSign(c)
  {
  }

  lemma AssignParts(e: Expr, s: Input, pos: nat, ws: seq<Byte>)
    requires e.Assign? && Blank(ws) && At(s, pos, Body(e, ws)) && pos + |Body(e, ws)| < |s|
    ensures var l, r := Render(e.l, 3, ws), Render(e.r, 3, ws);
            var m := pos + |l| + |ws|;
            At(s, pos, l) && At(s, pos + |l|, ws) && s[m] == EQUALS && At(s, m + 1, ws) && At(s, m + 1 + |ws|, r) &&
            m + 1 + |ws| + |r| == pos + |Body(e, ws)|
  {
    hide Render;
    Split5(s, pos, Render(e.l, 3, ws), ws, [EQUALS], Render(e.r, 3, ws));
    assert [EQUALS][0] == EQUALS;
  }

  lemma CombineAssign(s: Input, pos: nat, m: nat, r0: nat, p: nat, l: Expr, r: Expr)
    requires pos < m && m + 1 <= r0 < p < |s| && s[m] == EQUALS && s[m + 1] != EQUALS && Spaces(s, m + 1) == r0
    requires Spaces(s, pos) == pos && Comparison(s, pos) == Good(l, m) && Comparison(s, r0) == Good(r, p)
    ensures Equality(s, pos) == Good(Expr.Assign(l, r), p)
  {
    hide Comparison;
  }

  lemma {:induction false} ReadAssign(e: Expr, s: Input, pos: nat, ws: seq<Byte>)
    requires e.Assign?
    requires Printable(e) && Blank(ws) && At(s, pos, Body(e, ws)) && Follows(Level(e), s, pos + |Body(e, ws)|)
    ensures Body(e, ws) != [] && ReadsBack(e, Level(e), s, pos, pos + |Body(e, ws)|)
    decreases e, 3
  {
    hide Stops, Follows, Starts, Render, Comparison, Equality, At, Body, EndsAtom, Blank;
    var l, r, q := e.l, e.r, pos + |Body(e, ws)|;
    FollowsWithin(2, s, q);
    AssignParts(e, s, pos, ws);
    var left := Render(l, 3, ws);
    var m := pos + |left| + |ws|;
    var r0 := m + 1 + |ws|;
    EqualsFits();
    FollowsBefore(3, s, pos + |left|, ws);
    ReadRender(l, 3, s, pos, ws);
    FollowsTighter(2, 3, s, q);
    ReadRender(r, 3, s, r0, ws);
    StartsPlain(3, s[r0]);
    StartsPlain(3, s[pos]);
    SpacesAt(s, m + 1, ws);
    FirstAfter(ws, s, m + 1);
    StartsTighter(3, 2, s[pos]);
    assert Spaces(s, pos) == pos;
    CombineAssign(s, pos, m, r0, Spaces(s, q), l, r);
  }

  lemma EqualsFits()
    ensures !IsSpace(EQUALS) && EndsAtom(EQUALS) && Stops(3, EQUALS)
  {
  }

  /** A sign in front of a product: negation, or a doubled sign that counts up or down. */
  lemma {:induction false} ReadSigned(e: Expr, s: Input, pos: nat, ws: seq<Byte>)
    requires e.Minus? || e.Bump?
    requires Printable(e) && Blank(ws) && At(s, pos, Body(e, ws)) && Follows(Level(e), s, pos + |Body(e, ws)|)
    ensures Body(e, ws) != [] && ReadsBack(e, Level(e), s, pos, pos + |Body(e, ws)|)
    decreases e, 3
  {
    hide ParseAt, Finish, Follows, Render, Product, Sum;
    var a := e.e;
    var sign := if e.Minus? then [DASH] else if e.up then [PLUS, PLUS] else [DASH, DASH];
    AtSplit(s, pos, sign, Render(a, 5, ws));
    var b, q := pos + |sign|, pos + |Body(e, ws)|;
    assert s[pos] == sign[0];
    assert |sign| == 2 ==> s[pos + 1] == sign[1];
    FollowsTighter(4, 5, s, q);
    FollowsWithin(4, s, q);
    ReadRender(a, 5, s, b, ws);
    var p := Spaces(s, q);
    FinishStops(5, s, p, a);
    assert ParseAt(5, s, b) == Good(a, p);
    SignedSum(e, s, pos, b, p);
  }

  lemma SignedSum(e: Expr, s: Input, pos: nat, b: nat, p: nat)
    requires e.Minus? || e.Bump?
    requires pos < b < p < |s| && ParseAt(5, s, b) == Good(e.e, p) && Stops(5, s[p]) && Starts(5, s[b]) &&
             !IsSpace(s[p])
    requires e.Minus? ==> b == pos + 1 && s[pos] == DASH
    requires e.Bump? ==> b == pos + 2 && s[pos] == s[pos + 1] == if e.up then PLUS else DASH
    ensures Starts(4, s[pos]) && ParseAt(4, s, pos) == Finish(4, s, p, e)
  {
    assert Spaces(s, b) == b && Spaces(s, p) == p;
    if e.Bump? {
      assert Unary(s, pos + 1) == Good(e, p) by { hide Product; }
      assert PowerRest(s, p, e) == Good(e, p) && ProductRest(s, p, e) == Good(e, p);
      assert Power(s, pos + 1) == Good(e, p) by { hide Unary; }
      assert Product(s, pos + 1) == Good(e, p) by { hide Power; }
      assert Spaces(s, pos + 1) == pos + 1;
    }
    hide Product;
  }

  lemma {:induction false} ReadNot(e: Expr, s: Input, pos: nat, ws: seq<Byte>)
    requires e.Not?
    requires Printable(e) && Blank(ws) && At(s, pos, Body(e, ws)) && Follows(Level(e), s, pos + |Body(e, ws)|)
    ensures Body(e, ws) != [] && ReadsBack(e, Level(e), s, pos, pos + |Body(e, ws)|)
    decreases e, 3
  {
    hide Follows, Render, Paren, Stops;
    AtSplit(s, pos, [BANG], Render(e.e, 8, ws));
    assert [BANG][0] == BANG && s[pos] == BANG;
    var q := pos + |Body(e, ws)|;
    FollowsTighter(7, 8, s, q);
    ReadRender(e.e, 8, s, pos + 1, ws);
    StartsPlain(8, s[pos + 1]);
    assert Spaces(s, pos + 1) == pos + 1;
  }

  // ----- names applied to arguments -----

  lemma {:induction false} ReadArgs(args: seq<Expr>, n: nat, s: Input, pos: nat, ws: seq<Byte>)
    requires PrintableAll(args) && Blank(ws) && |args| + n <= 16 && At(s, pos, RenderArgs(args, ws))
    requires pos + |RenderArgs(args, ws)| < |s| && s[pos + |RenderArgs(args, ws)|] == CLOSE
    ensures !IsSpace(s[pos]) && Arguments(s, pos, n) == Good(args, pos + |RenderArgs(args, ws)|)
    decreases args, 0
  {
    hide Render, Starts, Follows, Sum, Printable, Arguments, Stops, Blank;
    if args == [] {
      ArgumentsEnd(s, pos, n);
    } else if |args| == 1 {
      ReadOneArg(args[0], s, pos, ws, pos + |RenderArgs(args, ws)|);
      ArgumentsLast(s, pos, n, args[0], pos + |RenderArgs(args, ws)|);
      assert args == [args[0]];
    } else {
      var first, rest := Render(args[0], 4, ws), RenderArgs(args[1..], ws);
      assert RenderArgs(args, ws) == first + [COMMA] + ws + rest;
      hide RenderArgs;
      AtSplit(s, pos, first + [COMMA] + ws, rest);
      AtSplit(s, pos, first + [COMMA], ws);
      AtSplit(s, pos, first, [COMMA]);
      assert [COMMA][0] == COMMA;
      var c := pos + |first|;
      hide At;
      ReadOneArg(args[0], s, pos, ws, c);
      ReadArgs(args[1..], n + 1, s, c + 1 + |ws|, ws);
      SpacesAt(s, c + 1, ws);
      ArgumentsNext(s, pos, n, args[0], c);
      assert args == [args[0]] + args[1..];
    }
  }

  lemma {:induction false} ReadOneArg(a: Expr, s: Input, pos: nat, ws: seq<Byte>, q: nat)
    requires Printable(a) && Blank(ws) && At(s, pos, Render(a, 4, ws)) && q == pos + |Render(a, 4, ws)| < |s|
    requires s[q] == CLOSE || s[q] == COMMA
    ensures pos < q && Starts(4, s[pos]) && !IsSpace(s[pos]) && s[pos] != CLOSE && Sum(s, pos) == Good(a, q)
    decreases a, 8
  {
    hide Render, Sum, Printable;
    FollowsBefore(4, s, q, []);
    ReadRender(a, 4, s, pos, ws);
    FinishStops(4, s, q, a);
  }

  lemma ArgumentsEnd(s: Input, pos: nat, n: nat)
    requires pos < |s| && s[pos] == CLOSE
    ensures Arguments(s, pos, n) == Good([], pos)
  {
  }

  lemma ArgumentsLast(s: Input, pos: nat, n: nat, a: Expr, p: nat)
    requires pos < |s| && s[pos] != CLOSE && n < MAX_ARGUMENTS && Sum(s, pos) == Good(a, p) && s[p] == CLOSE
    ensures Arguments(s, pos, n) == Good([a], p)
  {
    hide Sum;
  }

  lemma ArgumentsNext(s: Input, pos: nat, n: nat, a: Expr, p: nat)
    requires pos < |s| && s[pos] != CLOSE && n < MAX_ARGUMENTS && Sum(s, pos) == Good(a, p) && s[p] == COMMA
    ensures var r := Arguments(s, Spaces(s, p + 1), n + 1);
            Arguments(s, pos, n) == if r.Good? then Good([a] + r.value, r.pos) else Bad
  {
    hide Sum;
  }

  predicate Applied(e: Expr) {
    e.Call? || e.Foreign? || e.Print? || e.Microtime?
  }

  function HeadName(e: Expr): (x: Name)
    requires Applied(e)
  {
    match e
    case Call(f, _) => f
    case Foreign(lib, _, _) => lib
    case Print(_) => PRINT_NAME
    case Microtime => MICROTIME_NAME
  }

  /** The text between the name's opening character and the closing parenthesis. */
  function Tail(e: Expr, ws: seq<Byte>): (t: seq<Byte>)
    requires Applied(e)
  {
    match e
    case Call(_, args) => RenderArgs(args, ws)
    case Foreign(_, fn, args) => [COLON] + fn + [OPEN] + RenderArgs(args, ws)
    case Print(a) => Render(a, 0, ws)
    case Microtime => []
  }

  /** A name and an opening character; what is read after them decides. */
  lemma ReadNamed(s: Input, pos: nat, name: Name, open: Byte)
    requires IsName(name) && At(s, pos, name + [open]) && (open == OPEN || open == COLON) && pos + |name| + 1 < |s|
    ensures var p := pos + |name| + 1;
            Starts(8, s[pos]) && s[pos] != OPEN &&
            Atom(s, pos) == if open == OPEN then Called(s, p, name) else Imported(s, p, name)
  {
    hide Called, Imported, Indexed, Literal, Spaces, Word, At, AllWord;
    WordBefore(s, pos, name, open);
  }

  lemma WordBefore(s: Input, pos: nat, name: Name, open: Byte)
    requires IsName(name) && At(s, pos, name + [open]) && (open == OPEN || open == COLON) && pos + |name| + 1 < |s|
    ensures s[pos] == name[0] && Word(s, pos) == pos + |name| && s[pos..pos + |name|] == name && s[pos + |name|] == open
  {
    hide Word;
    AtSplit(s, pos, name, [open]);
    assert [open][0] == open;
    WordAt(s, pos, name);
  }

  lemma AppliedText(e: Expr, ws: seq<Byte>)
    requires Printable(e) && Applied(e)
    ensures IsName(HeadName(e))
    ensures Body(e, ws) == HeadName(e) + [if e.Foreign? then COLON else OPEN] + Tail(e, ws) + [CLOSE]
  {
    hide Render, RenderArgs;
  }

  lemma AppliedParts(e: Expr, s: Input, pos: nat, ws: seq<Byte>)
    requires Applied(e) && Printable(e) && At(s, pos, Body(e, ws))
    ensures var open, n, k := if e.Foreign? then COLON else OPEN, |HeadName(e)|, |Tail(e, ws)|;
            |Body(e, ws)| == n + k + 2 && IsName(HeadName(e)) && At(s, pos, HeadName(e) + [open]) &&
            At(s, pos + n + 1, Tail(e, ws)) && pos + n + 1 + k < |s| && s[pos + n + 1 + k] == CLOSE
  {
    hide Body, Tail, Printable, IsName, HeadName;
    AppliedText(e, ws);
    var name, open, tail := HeadName(e), if e.Foreign? then COLON else OPEN, Tail(e, ws);
    AtSplit(s, pos, name + [open] + tail, [CLOSE]);
    AtSplit(s, pos, name + [open], tail);
    assert [CLOSE][0] == CLOSE;
    assert s[pos + |name| + 1 + |tail|] == CLOSE;
  }

  lemma {:induction false} ReadApplied(e: Expr, s: Input, pos: nat, ws: seq<Byte>)
    requires Applied(e)
    requires Printable(e) && Blank(ws) && At(s, pos, Body(e, ws)) && Follows(8, s, pos + |Body(e, ws)|)
    ensures Body(e, ws) != [] && Starts(8, s[pos]) && Paren(s, pos) == Good(e, Spaces(s, pos + |Body(e, ws)|))
    decreases e, 3
  {
    hide Starts, Called, Imported, Follows, Atom, Blank, Printable, IsName, Body, Tail, At;
    FollowsWithin(8, s, pos + |Body(e, ws)|);
    AppliedParts(e, s, pos, ws);
    var name := HeadName(e);
    ReadNamed(s, pos, name, if e.Foreign? then COLON else OPEN);
    ReadTail(e, s, pos + |name| + 1, ws);
  }

  lemma {:induction false} ReadTail(e: Expr, s: Input, pos: nat, ws: seq<Byte>)
    requires Applied(e)
    requires Printable(e) && Blank(ws) && At(s, pos, Tail(e, ws)) && pos + |Tail(e, ws)| + 1 < |s|
    requires s[pos + |Tail(e, ws)|] == CLOSE
    ensures (if e.Foreign? then Imported(s, pos, HeadName(e)) else Called(s, pos, HeadName(e))) ==
            Good(e, Spaces(s, pos + |Tail(e, ws)| + 1))
    decreases e, 2
  {
    hide Render, RenderArgs, Disjunction, Arguments, Follows, Blank;
    var q := pos + |Tail(e, ws)|;
    if e.Call? {
      ReadArgs(e.args, 0, s, pos, ws);
      assert Spaces(s, pos) == pos;
    } else if e.Foreign? {
      ReadForeign(e, s, pos, ws);
    } else if e.Print? {
      hide Called;
      ReadPrinted(e, s, pos, ws, q);
    }
  }

  lemma {:induction false} ReadPrinted(e: Expr, s: Input, pos: nat, ws: seq<Byte>, q: nat)
    requires e.Print? && Printable(e) && Blank(ws) && At(s, pos, Render(e.e, 0, ws))
    requires q == pos + |Render(e.e, 0, ws)| && q + 1 < |s| && s[q] == CLOSE
    ensures Called(s, pos, PRINT_NAME) == Good(e, Spaces(s, q + 1))
    decreases e, 1
  {
    hide Render, Disjunction, Follows;
    FollowsBefore(0, s, q, []);
    ReadRender(e.e, 0, s, pos, ws);
    FinishStops(0, s, q, e.e);
    assert Disjunction(s, pos) == Good(e.e, q);
  }

  lemma {:induction false} ReadForeign(e: Expr, s: Input, pos: nat, ws: seq<Byte>)
    requires e.Foreign? && Printable(e) && Blank(ws) && At(s, pos, Tail(e, ws)) && pos + |Tail(e, ws)| + 1 < |s|
    requires s[pos + |Tail(e, ws)|] == CLOSE
    ensures Imported(s, pos, e.lib) == Good(e, Spaces(s, pos + |Tail(e, ws)| + 1))
    decreases e, 1
  {
    hide Render, RenderArgs, Arguments, Blank;
    var fn, rest := e.fn, RenderArgs(e.args, ws);
    AtSplit(s, pos, [COLON] + fn + [OPEN], rest);
    AtSplit(s, pos, [COLON] + fn, [OPEN]);
    AtSplit(s, pos, [COLON], fn);
    assert [COLON][0] == COLON && [OPEN][0] == OPEN;
    WordAt(s, pos + 1, fn);
    var p := pos + 1 + |fn| + 1;
    ReadArgs(e.args, 0, s, p, ws);
    assert Spaces(s, p) == p;
  }

  // ----- the round trip -----

  lemma LeadingSpace(s: Input, pos: nat)
    requires pos < |s|
    ensures Disjunction(s, pos) == Disjunction(s, Spaces(s, pos))
  {
    hide Comparison;
    var p := Spaces(s, pos);
    assert Spaces(s, p) == p;
    assert Equality(s, pos) == Equality(s, p);
    hide Equality;
    assert Conjunction(s, pos) == Conjunction(s, p);
    hide Conjunction;
  }

  lemma ParseWhole(text: seq<Byte>, e: Expr)
    requires Disjunction(text + [0], 0) == Good(e, |text|)
    ensures Parse(text) == Some(e)
  {
    hide Disjunction;
    var s: Input := text + [0];
    assert Spaces(s, |text|) == |text|;
  }

  /** Any printable tree, written with any white space, is read back as itself. */
  lemma RoundTrip(e: Expr, pad: seq<Byte>, ws: seq<Byte>)
    requires Printable(e) && Blank(pad) && Blank(ws)
    ensures Parse(pad + Render(e, 0, ws)) == Some(e)
  {
    hide Render, Printable, Disjunction, Parse;
    var t := pad + Render(e, 0, ws);
    var s: Input := t + [0];
    assert Spaces(s, |t|) == |t|;
    ReadRender(e, 0, s, |pad|, ws);
    SpacesAt(s, 0, pad);
    LeadingSpace(s, 0);
    FinishStops(0, s, |t|, e);
    ParseWhole(t, e);
  }

  lemma RoundTripEnclosed(e: Expr, pad: seq<Byte>, ws: seq<Byte>)
    requires Printable(e) && Blank(pad) && Blank(ws)
    ensures Parse(pad + Enclosed(e, ws)) == Some(e)
  {
    hide Enclosed, Printable, Disjunction, Parse, Starts;
    var t := pad + Enclosed(e, ws);
    var s: Input := t + [0];
    assert Spaces(s, |t|) == |t|;
    ReadParenthesized(e, s, |pad|, ws);
    LoosenTo(8, 0, s, |pad|, |t|, e);
    StartsPlain(8, s[|pad|]);
    SpacesAt(s, 0, pad);
    LeadingSpace(s, 0);
    FinishStops(0, s, |t|, e);
    ParseWhole(t, e);
  }
}
