/** The grammar core/expression.c accepts, as recursive functions from text to trees. */
module Grammar {
  import opened Bytes
  import opened Values
  import opened Syntax

  /** Text with its terminating zero byte, which is the last readable character. */
  type Input = s: seq<Byte> | |s| > 0 && s[|s| - 1] == 0 witness [0]

  /** A parse either fails as a whole or yields a value and the position behind it. */
  datatype Parsed<+T> = Bad | Good(value: T, pos: nat) {
    predicate IsFailure() {
      Bad?
    }

    function PropagateFailure<U>(): Parsed<U>
      requires Bad?
    {
      Bad
    }

    function Extract(): (T, nat)
      requires Good?
    {
      (value, pos)
    }
  }

  /** The argument lists of a tree are as short as the parser demands. */
  predicate FewArgs(e: Expr)
    decreases e, 1
  {
    match e
    case Bin(_, l, r) => FewArgs(l) && FewArgs(r)
    case Assign(l, r) => FewArgs(l) && FewArgs(r)
    case Not(a) => FewArgs(a)
    case Minus(a) => FewArgs(a)
    case Bump(_, a) => FewArgs(a)
    case Call(_, args) => |args| <= MAX_ARGUMENTS && FewArgsAll(args)
    case Foreign(_, _, args) => |args| <= MAX_ARGUMENTS && FewArgsAll(args)
    case Print(a) => FewArgs(a)
    case Access(_, i) => FewArgs(i)
    case SetElem(_, i, v) => FewArgs(i) && FewArgs(v)
    case AddElem(_, v) => FewArgs(v)
    case _ => true
  }

  predicate FewArgsAll(args: seq<Expr>)
    decreases args, 0
  {
    args == [] || (FewArgs(args[0]) && FewArgsAll(args[1..]))
  }

  // ----- characters -----

  const QUOTE: Byte := 39
  const OPEN: Byte := 40
  const CLOSE: Byte := 41
  const STAR: Byte := 42
  const PLUS: Byte := 43
  const COMMA: Byte := 44
  const DASH: Byte := 45
  const SLASH: Byte := 47
  const COLON: Byte := 58
  const LESS_THAN: Byte := 60
  const EQUALS: Byte := 61
  const MORE_THAN: Byte := 62
  const OPEN_SQUARE: Byte := 91
  const CLOSE_SQUARE: Byte := 93
  const CARET: Byte := 94
  const UNDERSCORE: Byte := 95
  const PERCENT: Byte := 37
  const AMPERSAND: Byte := 38
  const PIPE: Byte := 124
  const BANG: Byte := 33

  /** "print" and "microtime" */
  const PRINT_NAME: Name := [112, 114, 105, 110, 116]
  const MICROTIME_NAME: Name := [109, 105, 99, 114, 111, 116, 105, 109, 101]

  const MAX_ARGUMENTS := 16

  predicate IsSpace(b: Byte) {
    b == 32 || 9 <= b <= 13
  }

  predicate IsDigit(b: Byte) {
    48 <= b <= 57
  }

  predicate IsAlpha(b: Byte) {
    65 <= b <= 90 || 97 <= b <= 122
  }

  predicate IsWord(b: Byte) {
    IsAlpha(b) || IsDigit(b) || b == UNDERSCORE || b == DOT
  }

  predicate IsSign(b: Byte) {
    b == PLUS || b == DASH
  }

  function Spaces(s: Input, pos: nat): (r: nat)
    requires pos < |s|
    ensures pos <= r < |s| && !IsSpace(s[r])
    decreases |s| - pos
  {
    if IsSpace(s[pos]) then Spaces(s, pos + 1) else pos
  }

  function Digits(s: Input, pos: nat): (r: nat)
    requires pos < |s|
    ensures pos <= r < |s|
    decreases |s| - pos
  {
    if IsDigit(s[pos]) then Digits(s, pos + 1) else pos
  }

  function Word(s: Input, pos: nat): (r: nat)
    requires pos < |s|
    ensures pos <= r < |s|
    decreases |s| - pos
  {
    if IsWord(s[pos]) then Word(s, pos + 1) else pos
  }

  /** The closing quote, if there is one. */
  function Closing(s: Input, pos: nat): (r: Parsed<()>)
    requires pos < |s|
    ensures r.Good? ==> pos <= r.pos < |s| - 1
    decreases |s| - pos
  {
    if s[pos] == QUOTE then Good((), pos) else if pos + 1 < |s| then Closing(s, pos + 1) else Bad
  }

  // ----- literals -----

  function Optional(s: Input, pos: nat, present: bool): (r: nat)
    requires pos < |s| && (present ==> s[pos] != 0)
    ensures pos <= r < |s| && r == if present then pos + 1 else pos
  {
    if present then pos + 1 else pos
  }

  function Exponent(s: Input, pos: nat): (r: nat)
    requires pos < |s|
    ensures pos <= r < |s|
  {
    if s[pos] == 101 || s[pos] == 69 then Optional(s, pos + 1, IsSign(s[pos + 1])) else pos
  }

  /** Sign, digits, point, digits, exponent with sign, digits: every part may be missing. */
  function NumberEnd(s: Input, pos: nat): (r: nat)
    requires pos < |s|
    ensures pos <= r < |s|
  {
    var p1 := Digits(s, Optional(s, pos, IsSign(s[pos])));
    var p2 := Digits(s, Optional(s, p1, s[p1] == DOT));
    Digits(s, Exponent(s, p2))
  }

  function Literal(s: Input, pos: nat): (r: Parsed<Expr>)
    requires pos < |s|
    ensures r.Good? ==> pos < r.pos < |s|
    ensures r.Good? ==> FewArgs(r.value)
  {
    if s[pos] == QUOTE then
      var (_, close) :- Closing(s, pos + 1);
      Good(Quoted(s[pos + 1..close]), close + 1)
    else
      var end := NumberEnd(s, pos);
      if end == pos then Bad else Good(Number(s[pos..end]), Spaces(s, end))
  }

  // ----- the layers, innermost first; each ends behind trailing white space -----

  function Closed(s: Input, pos: nat, e: Expr): (r: Parsed<Expr>)
    requires pos < |s|
    ensures r.Good? ==> pos < r.pos < |s|
    ensures r.Good? && FewArgs(e) ==> FewArgs(r.value)
  {
    if s[pos] == CLOSE then Good(e, Spaces(s, pos + 1)) else Bad
  }

  function Argument(s: Input, pos: nat): (r: Parsed<Expr>)
    requires pos < |s|
    ensures r.Good? ==> pos < r.pos < |s|
    ensures r.Good? ==> FewArgs(r.value)
    decreases |s| - pos, 11
  {
    var (e, p) :- Sum(s, Spaces(s, pos));
    Good(e, Spaces(s, Optional(s, p, s[p] == COMMA)))
  }

  /** A comma may also stand before the closing parenthesis. */
  function Arguments(s: Input, pos: nat, n: nat): (r: Parsed<seq<Expr>>)
    requires pos < |s|
    ensures r.Good? ==> pos <= r.pos < |s| && s[r.pos] == CLOSE && FewArgsAll(r.value)
    ensures r.Good? && n <= MAX_ARGUMENTS ==> |r.value| + n <= MAX_ARGUMENTS
    decreases |s| - pos, 11
  {
    if s[pos] == CLOSE then Good([], pos)
    else if n >= MAX_ARGUMENTS then Bad
    else
      var (a, p) :- Sum(s, pos);
      if s[p] == CLOSE then Good([a], p)
      else if s[p] != COMMA then Bad
      else
        var (rest, q) :- Arguments(s, Spaces(s, p + 1), n + 1);
        Good([a] + rest, q)
  }

  /** name( ... ): print, microtime, or a block call. */
  function Called(s: Input, pos: nat, name: Name): (r: Parsed<Expr>)
    requires pos < |s|
    ensures r.Good? ==> pos < r.pos < |s|
    ensures r.Good? ==> FewArgs(r.value)
    decreases |s| - pos, 12
  {
    if name == PRINT_NAME then
      var (e, p) :- Disjunction(s, pos);
      Closed(s, p, Print(e))
    else if name == MICROTIME_NAME then Closed(s, pos, Microtime)
    else
      var (args, p) :- Arguments(s, Spaces(s, pos), 0);
      Closed(s, p, Call(name, args))
  }

  /** name[ ... ]: append, assign or read an element. */
  function Indexed(s: Input, pos: nat, name: Name): (r: Parsed<Expr>)
    requires pos < |s|
    ensures r.Good? ==> pos < r.pos < |s|
    ensures r.Good? ==> FewArgs(r.value)
    decreases |s| - pos, 12
  {
    if s[pos] == CLOSE_SQUARE then
      var p := Spaces(s, pos + 1);
      if s[p] != EQUALS then Bad
      else
        var (v, q) :- Argument(s, p + 1);
        Good(AddElem(name, v), q)
    else
      var (i, p) :- Sum(s, pos);
      if s[p] != CLOSE_SQUARE then Bad
      else
        var q := Spaces(s, p + 1);
        if s[q] == EQUALS then
          var (v, t) :- Argument(s, q + 1);
          Good(SetElem(name, i, v), t)
        else Good(Access(name, i), q)
  }

  /** lib::name( ... ) */
  function Imported(s: Input, pos: nat, lib: Name): (r: Parsed<Expr>)
    requires pos < |s|
    ensures r.Good? ==> pos < r.pos < |s|
    ensures r.Good? ==> FewArgs(r.value)
    decreases |s| - pos, 12
  {
    if s[pos] != COLON then Bad
    else
      var end := Word(s, pos + 1);
      if s[end] != OPEN then Bad
      else
        var (args, p) :- Arguments(s, Spaces(s, end + 1), 0);
        Closed(s, p, Foreign(lib, s[pos + 1..end], args))
  }

  function Atom(s: Input, pos: nat): (r: Parsed<Expr>)
    requires pos < |s|
    ensures r.Good? ==> pos < r.pos < |s|
    ensures r.Good? ==> FewArgs(r.value)
    decreases |s| - pos, 1
  {
    if IsAlpha(s[pos]) || s[pos] == UNDERSCORE then
      var end := Word(s, pos);
      var name := s[pos..end];
      if s[end] == OPEN then Called(s, end + 1, name)
      else if s[end] == OPEN_SQUARE then Indexed(s, end + 1, name)
      else if s[end] == COLON then Imported(s, end + 1, name)
      else Good(if name == [UNDERSCORE] then Void else Ref(name), Spaces(s, end))
    else
      var (e, p) :- Literal(s, pos);
      Good(e, Spaces(s, p))
  }

  function Paren(s: Input, pos: nat): (r: Parsed<Expr>)
    requires pos < |s|
    ensures r.Good? ==> pos < r.pos < |s|
    ensures r.Good? ==> FewArgs(r.value)
    decreases |s| - pos, 2
  {
    if s[pos] == OPEN then
      var (e, p) :- Disjunction(s, Spaces(s, pos + 1));
      Closed(s, p, e)
    else Atom(s, pos)
  }

  /** In operand position a sign is a decrement or an increment, of everything up to the next sum operator. */
  function Unary(s: Input, pos: nat): (r: Parsed<Expr>)
    requires pos < |s|
    ensures r.Good? ==> pos < r.pos < |s|
    ensures r.Good? ==> FewArgs(r.value)
    decreases |s| - pos, 3
  {
    if s[pos] == BANG then
      var (e, p) :- Paren(s, Spaces(s, pos + 1));
      Good(Not(e), p)
    else if IsSign(s[pos]) then
      var (e, p) :- Product(s, Spaces(s, pos + 1));
      Good(Expr.Bump(s[pos] == PLUS, e), p)
    else Paren(s, pos)
  }

  function Power(s: Input, pos: nat): (r: Parsed<Expr>)
    requires pos < |s|
    ensures r.Good? ==> pos < r.pos < |s|
    ensures r.Good? ==> FewArgs(r.value)
    decreases |s| - pos, 4
  {
    var (e, p) :- Unary(s, pos);
    PowerRest(s, p, e)
  }

  function PowerRest(s: Input, pos: nat, l: Expr): (r: Parsed<Expr>)
    requires pos < |s|
    ensures r.Good? ==> pos <= r.pos < |s|
    ensures r.Good? && FewArgs(l) ==> FewArgs(r.value)
    decreases |s| - pos, 0
  {
    if s[pos] != CARET then Good(l, pos)
    else
      var p := Spaces(s, pos + 1);
      if s[p] == DASH then Bad
      else
        var (e, q) :- Power(s, p);
        PowerRest(s, q, Bin(Pow, l, e))
  }

  function ProductOp(b: Byte): (r: Option<BinOp>) {
    if b == STAR then Some(Mul) else if b == SLASH then Some(Div) else if b == PERCENT then Some(Mod) else None
  }

  function Product(s: Input, pos: nat): (r: Parsed<Expr>)
    requires pos < |s|
    ensures r.Good? ==> pos < r.pos < |s|
    ensures r.Good? ==> FewArgs(r.value)
    decreases |s| - pos, 5
  {
    var (e, p) :- Power(s, pos);
    ProductRest(s, p, e)
  }

  function ProductRest(s: Input, pos: nat, l: Expr): (r: Parsed<Expr>)
    requires pos < |s|
    ensures r.Good? ==> pos <= r.pos < |s|
    ensures r.Good? && FewArgs(l) ==> FewArgs(r.value)
    decreases |s| - pos, 0
  {
    match ProductOp(s[pos])
    case None => Good(l, pos)
    case Some(op) =>
      var (e, p) :- Power(s, Spaces(s, pos + 1));
      ProductRest(s, p, Bin(op, l, e))
  }

  /** A leading minus negates the first product, unless another minus follows. */
  function Sum(s: Input, pos: nat): (r: Parsed<Expr>)
    requires pos < |s|
    ensures r.Good? ==> pos < r.pos < |s|
    ensures r.Good? ==> FewArgs(r.value)
    decreases |s| - pos, 6
  {
    if IsSign(s[pos]) then
      var p := Spaces(s, pos + 1);
      var (e, q) :- Product(s, p);
      SumRest(s, q, if s[pos] == DASH && s[p] != DASH then Minus(e) else e)
    else
      var (e, p) :- Product(s, pos);
      SumRest(s, p, e)
  }

  function SumRest(s: Input, pos: nat, l: Expr): (r: Parsed<Expr>)
    requires pos < |s|
    ensures r.Good? ==> pos <= r.pos < |s|
    ensures r.Good? && FewArgs(l) ==> FewArgs(r.value)
    decreases |s| - pos, 0
  {
    if !IsSign(s[pos]) then Good(l, pos)
    else
      var (e, p) :- Product(s, Spaces(s, pos + 1));
      SumRest(s, p, Bin(if s[pos] == PLUS then Add else Sub, l, e))
  }

  function CompareOp(less: bool, equal: bool): (op: BinOp) {
    if less then (if equal then Le else Lt) else if equal then Ge else Gt
  }

  /** At most one comparison: they do not chain. */
  function Comparison(s: Input, pos: nat): (r: Parsed<Expr>)
    requires pos < |s|
    ensures r.Good? ==> pos < r.pos < |s|
    ensures r.Good? ==> FewArgs(r.value)
    decreases |s| - pos, 7
  {
    var (l, p) :- Sum(s, Spaces(s, pos));
    if s[p] != LESS_THAN && s[p] != MORE_THAN then Good(l, p)
    else
      var equal := s[p + 1] == EQUALS;
      var q := Optional(s, p + 1, equal);
      var (e, t) :- Sum(s, Spaces(s, q));
      Good(Bin(CompareOp(s[p] == LESS_THAN, equal), l, e), t)
  }

  /** At most one equality, inequality or assignment. A lone exclamation mark ends the expression. */
  function Equality(s: Input, pos: nat): (r: Parsed<Expr>)
    requires pos < |s|
    ensures r.Good? ==> pos < r.pos < |s|
    ensures r.Good? ==> FewArgs(r.value)
    decreases |s| - pos, 8
  {
    var (l, p) :- Comparison(s, Spaces(s, pos));
    if s[p] == EQUALS then
      var double := s[p + 1] == EQUALS;
      var q := Optional(s, p + 1, double);
      var (e, t) :- Comparison(s, Spaces(s, q));
      Good(if double then Bin(Eq, l, e) else Expr.Assign(l, e), t)
    else if s[p] == BANG && s[p + 1] == EQUALS then
      var (e, t) :- Comparison(s, Spaces(s, p + 2));
      Good(Bin(Ne, l, e), t)
    else Good(l, p)
  }

  function Conjunction(s: Input, pos: nat): (r: Parsed<Expr>)
    requires pos < |s|
    ensures r.Good? ==> pos < r.pos < |s|
    ensures r.Good? ==> FewArgs(r.value)
    decreases |s| - pos, 9
  {
    var (e, p) :- Equality(s, pos);
    ConjunctionRest(s, p, e)
  }

  function ConjunctionRest(s: Input, pos: nat, l: Expr): (r: Parsed<Expr>)
    requires pos < |s|
    ensures r.Good? ==> pos <= r.pos < |s|
    ensures r.Good? && FewArgs(l) ==> FewArgs(r.value)
    decreases |s| - pos, 0
  {
    if s[pos] != AMPERSAND then Good(l, pos)
    else if s[pos + 1] != AMPERSAND then Bad
    else
      var (e, p) :- Equality(s, Spaces(s, pos + 2));
      ConjunctionRest(s, p, Bin(And, l, e))
  }

  function Disjunction(s: Input, pos: nat): (r: Parsed<Expr>)
    requires pos < |s|
    ensures r.Good? ==> pos < r.pos < |s|
    ensures r.Good? ==> FewArgs(r.value)
    decreases |s| - pos, 10
  {
    var (e, p) :- Conjunction(s, pos);
    DisjunctionRest(s, p, e)
  }

  function DisjunctionRest(s: Input, pos: nat, l: Expr): (r: Parsed<Expr>)
    requires pos < |s|
    ensures r.Good? ==> pos <= r.pos < |s|
    ensures r.Good? && FewArgs(l) ==> FewArgs(r.value)
    decreases |s| - pos, 0
  {
    if s[pos] != PIPE then Good(l, pos)
    else if s[pos + 1] != PIPE then Bad
    else
      var (e, p) :- Conjunction(s, Spaces(s, pos + 2));
      DisjunctionRest(s, p, Bin(Or, l, e))
  }

  /** parser_parse: the whole text has to be used up. */
  function Parse(text: seq<Byte>): (r: Option<Expr>) {
    var s: Input := text + [0];
    match Disjunction(s, 0)
    case Bad => None
    case Good(e, p) => if Spaces(s, p) < |s| - 1 then None else Some(e)
  }
}
