/** What operators compute, in terms of whole numbers and texts instead of a machine's doubles. */
module Whole {
  import opened Bytes
  import opened Values
  import opened Syntax
  import opened Semantics

  /** Doubles hold whole numbers exactly up to 2^53. */
  const LIMIT := 0x20_0000_0000_0000

  predicate InRange(n: int) {
    -LIMIT <= n <= LIMIT
  }

  // ----- arithmetic -----

  function Power(b: int, n: nat): (r: int) {
    if n == 0 then 1 else b * Power(b, n - 1)
  }

  /** The remainder takes the sign of the dividend. */
  function Remainder(m: int, n: int): (r: int)
    requires n != 0
  {
    if m >= 0 then m % n else -(-m % n)
  }

  /** A number in decimal notation. */
  function Decimal(n: int): (t: seq<Byte>)
    decreases n < 0, if n < 0 then -n else n
  {
    if n < 0 then [45] + Decimal(-n) else if n < 10 then [48 + n] else Decimal(n / 10) + [48 + n % 10]
  }

  predicate AllDigits(t: seq<Byte>) {
    forall i :: 0 <= i < |t| ==> 48 <= t[i] <= 57
  }

  /** The number a row of digits stands for. */
  function NumberOf(t: seq<Byte>): (n: nat)
    requires AllDigits(t)
  {
    if t == [] then 0 else 10 * NumberOf(t[..|t| - 1]) + (t[|t| - 1] as int - 48)
  }

  lemma {:induction false} DecimalReads(n: nat)
    ensures Decimal(n) != [] && AllDigits(Decimal(n)) && NumberOf(Decimal(n)) == n
    decreases n
  {
    if n >= 10 {
      DecimalReads(n / 10);
      var t, last := Decimal(n / 10), 48 + n % 10;
      assert (t + [last])[..|t|] == t;
    }
  }

  // ----- hosts that compute with whole numbers -----

  /** dec tells which whole number a double is. Negative zero, fractions, infinities are none, so a law speaks only
      of operations whose result is a whole number again. */
  ghost predicate Exact(h: Host, dec: Double -> Option<int>) {
    Faithful(h, dec) && ExactSums(h, dec) && ExactProducts(h, dec) && ExactQuotients(h, dec) && ExactOrder(h, dec) &&
    ExactTexts(h, dec)
  }

  ghost predicate Faithful(h: Host, dec: Double -> Option<int>) {
    (forall x :: dec(x).Some? ==> InRange(dec(x).value)) &&
    (forall x, y :: dec(x).Some? && dec(x) == dec(y) ==> x == y) && dec(h.zero) == Some(0) && dec(h.one) == Some(1)
  }

  ghost predicate ExactSums(h: Host, dec: Double -> Option<int>) {
    forall x, y {:trigger Summed(h, dec, x, y)} :: dec(x).Some? && dec(y).Some? ==> Summed(h, dec, x, y)
  }

  ghost predicate Summed(h: Host, dec: Double -> Option<int>, x: Double, y: Double)
    requires dec(x).Some? && dec(y).Some?
  {
    var m, n := dec(x).value, dec(y).value;
    (InRange(m + n) ==> dec(h.add(x, y)) == Some(m + n)) && (InRange(m - n) ==> dec(h.sub(x, y)) == Some(m - n)) &&
    (m != 0 ==> dec(h.neg(x)) == Some(-m))
  }

  ghost predicate ExactProducts(h: Host, dec: Double -> Option<int>) {
    forall x, y {:trigger Multiplied(h, dec, x, y)} :: dec(x).Some? && dec(y).Some? ==> Multiplied(h, dec, x, y)
  }

  /** 0 times a negative number is negative zero. */
  ghost predicate Multiplied(h: Host, dec: Double -> Option<int>, x: Double, y: Double)
    requires dec(x).Some? && dec(y).Some?
  {
    var m, n := dec(x).value, dec(y).value;
    (InRange(m * n) && (m * n != 0 || (m >= 0 && n >= 0)) ==> dec(h.mul(x, y)) == Some(m * n)) &&
    (n >= 0 && InRange(Power(m, n)) ==> dec(h.pow(x, y)) == Some(Power(m, n)))
  }

  ghost predicate ExactQuotients(h: Host, dec: Double -> Option<int>) {
    forall x, y {:trigger Divided(h, dec, x, y)} ::
      dec(x).Some? && dec(y).Some? && dec(y).value != 0 ==> Divided(h, dec, x, y)
  }

  /** So is 0 divided by one, and what a negative number leaves when it is divided without remainder. */
  ghost predicate Divided(h: Host, dec: Double -> Option<int>, x: Double, y: Double)
    requires dec(x).Some? && dec(y).Some? && dec(y).value != 0
  {
    var m, n := dec(x).value, dec(y).value;
    (m % n == 0 && (m != 0 || n > 0) ==> dec(h.div(x, y)) == Some(m / n)) &&
    (Remainder(m, n) != 0 || m >= 0 ==> dec(h.fmod(x, y)) == Some(Remainder(m, n)))
  }

  ghost predicate ExactOrder(h: Host, dec: Double -> Option<int>) {
    forall x, y {:trigger Ordered(h, dec, x, y)} :: dec(x).Some? && dec(y).Some? ==> Ordered(h, dec, x, y)
  }

  ghost predicate Ordered(h: Host, dec: Double -> Option<int>, x: Double, y: Double)
    requires dec(x).Some? && dec(y).Some?
  {
    var m, n := dec(x).value, dec(y).value;
    h.less(x, y) == (m < n) && h.lessEq(x, y) == (m <= n) && h.nonZero(x) == (m != 0) && h.aboveThreshold(x) == (m != 0)
  }

  /** `%.6g` prints six digits in full. */
  ghost predicate ExactTexts(h: Host, dec: Double -> Option<int>) {
    (forall t :: AllDigits(t) && t != [] && NumberOf(t) <= LIMIT ==> dec(h.strtod(t)) == Some(NumberOf(t))) &&
    forall x :: dec(x).Some? && -1000000 < dec(x).value < 1000000 ==> h.format(x) == Decimal(dec(x).value)
  }

  // ----- values as seen from outside -----

  datatype Plain = Int(n: int) | Chars(s: seq<Byte>) | Nothing

  /** An answer that is known, an error that is known, or a case that whole numbers do not decide. */
  datatype Answer = Known(p: Plain) | Fails(f: Fault) | Open

  function View(dec: Double -> Option<int>, v: Value): (p: Option<Plain>) {
    match v
    case Unset => Some(Nothing)
    case Null => None
    case Num(d) => (match dec(d) case None => None case Some(n) => Some(Int(n)))
    case Str(s) => Some(Chars(s))
  }

  function Views(dec: Double -> Option<int>, vars: map<Name, Value>): (env: map<Name, Option<Plain>>) {
    map x | x in vars :: View(dec, vars[x])
  }

  function Whether(b: bool): (a: Answer) {
    Known(Int(if b then 1 else 0))
  }

  function Bounded(n: int): (a: Answer) {
    if InRange(n) then Known(Int(n)) else Open
  }

  /** The part of a text in front of its first zero byte. */
  ghost predicate IsCut(s: seq<Byte>, c: seq<Byte>) {
    c <= s && 0 !in c && (|c| < |s| ==> s[|c|] == 0)
  }

  ghost predicate CutAlike(s: seq<Byte>, t: seq<Byte>) {
    exists c :: IsCut(s, c) && IsCut(t, c)
  }

  /** t goes on where s ends, or the first byte in which they differ is smaller in s. */
  ghost predicate Before(s: seq<Byte>, t: seq<Byte>) {
    exists k :: 0 <= k <= |s| && k < |t| && s[..k] == t[..k] && (k < |s| ==> s[k] < t[k])
  }

  ghost predicate CutBefore(s: seq<Byte>, t: seq<Byte>) {
    exists c, d :: IsCut(s, c) && IsCut(t, d) && Before(c, d)
  }

  function OnInts(op: BinOp, m: int, n: int): (a: Answer) {
    match op
    case Or => Whether(m != 0 || n != 0)
    case And => Whether(m != 0 && n != 0)
    case Eq => Whether(m == n)
    case Ne => Whether(m != n)
    case Lt => Whether(m < n)
    case Le => Whether(m <= n)
    case Gt => Whether(m > n)
    case Ge => Whether(m >= n)
    case Add => Bounded(m + n)
    case Sub => Bounded(m - n)
    case Mul => if m * n == 0 && (m < 0 || n < 0) then Open else Bounded(m * n)
    case Div => if n == 0 || m % n != 0 || (m == 0 && n < 0) then Open else Known(Int(m / n))
    case Mod => if n == 0 || (m < 0 && m % n == 0) then Open else Known(Int(Remainder(m, n)))
    case Pow => if n < 0 then Open else Bounded(Power(m, n))
  }

  /** Texts can be put together and compared, as far as their first zero byte. */
  ghost function OnTexts(op: BinOp, s: seq<Byte>, t: seq<Byte>): (a: Answer) {
    match op
    case Add => Known(Chars(s + t))
    case Eq => Whether(CutAlike(s, t))
    case Ne => Whether(!CutAlike(s, t))
    case Lt => Whether(CutBefore(s, t))
    case Gt => Whether(CutBefore(t, s))
    case _ => Fails(RuntimeError)
  }

  /** A number and a text: put together they are a text; four operators let one number pass and read the other
      operand as one; any other is an error. */
  function OnIntAndText(op: BinOp, n: int, joined: seq<Byte>): (a: Answer) {
    match op
    case Add => if -1000000 < n < 1000000 then Known(Chars(joined)) else Open
    case Mod => Fails(Undefined)
    case Pow => Fails(Undefined)
    case And => Fails(Undefined)
    case Or => Fails(Undefined)
    case _ => Fails(RuntimeError)
  }

  /** The unset value equals nothing, not even itself. */
  function OnNothing(op: BinOp, number: bool): (a: Answer) {
    match op
    case Eq => Whether(false)
    case Ne => Whether(true)
    case Mod => Fails(if number then Undefined else RuntimeError)
    case Pow => Fails(if number then Undefined else RuntimeError)
    case And => Fails(if number then Undefined else RuntimeError)
    case Or => Fails(if number then Undefined else RuntimeError)
    case _ => Fails(RuntimeError)
  }

  ghost function OnPlain(op: BinOp, p: Plain, q: Plain): (a: Answer) {
    match (p, q)
    case (Int(m), Int(n)) => OnInts(op, m, n)
    case (Chars(s), Chars(t)) => OnTexts(op, s, t)
    case (Int(n), Chars(t)) => OnIntAndText(op, n, Decimal(n) + t)
    case (Chars(s), Int(n)) => OnIntAndText(op, n, s + Decimal(n))
    case _ => OnNothing(op, p.Int? || q.Int?)
  }

  function Backwards(s: seq<Byte>): (t: seq<Byte>) {
    seq(|s|, i requires 0 <= i < |s| => s[|s| - 1 - i])
  }

  /** The value of an expression without calls and effects, over variables of known values. */
  ghost function ValueOf(env: map<Name, Option<Plain>>, e: Expr): (a: Answer) {
    match e
    case Number(t) => if AllDigits(t) && t != [] && NumberOf(t) <= LIMIT then Known(Int(NumberOf(t))) else Open
    case Quoted(t) => Known(Chars(t))
    case Void => Known(Nothing)
    case Ref(x) => if x !in env then Fails(RuntimeError) else if env[x].None? then Open else Known(env[x].value)
    case Bin(op, l, r) =>
      var a, b := ValueOf(env, l), ValueOf(env, r);
      if !a.Known? then a else if !b.Known? then b else OnPlain(op, a.p, b.p)
    case Not(x) =>
      var a := ValueOf(env, x);
      if !a.Known? then a else if a.p.Int? then Whether(a.p.n == 0) else Fails(RuntimeError)
    case Minus(x) =>
      var a := ValueOf(env, x);
      if !a.Known? then a
      else if a.p.Chars? then Known(Chars(Backwards(a.p.s)))
      else if a.p.Nothing? then Fails(RuntimeError)
      else if a.p.n == 0 then Open
      else Known(Int(-a.p.n))
    case _ => Open
  }

  // ----- C strings -----

  lemma {:induction false} CutIs(s: seq<Byte>)
    ensures IsCut(s, CStr(s))
    decreases |s|
  {
    if s != [] && s[0] != NUL {
      CutIs(s[1..]);
      var c := CStr(s[1..]);
      assert forall k :: 0 <= k < |c| ==> c[k] == s[k + 1];
    }
  }

  lemma CutUnique(s: seq<Byte>, c: seq<Byte>, d: seq<Byte>)
    requires IsCut(s, c) && IsCut(s, d)
    ensures c == d
  {
    assert c == s[..|c|] && d == s[..|d|];
  }

  lemma {:induction false} LessIsBefore(s: seq<Byte>, t: seq<Byte>)
    ensures StrLess(s, t) <==> Before(s, t)
    decreases |s|
  {
    if t == [] {
    } else if s == [] {
      assert s[..0] == t[..0];
    } else if s[0] != t[0] {
      if s[0] < t[0] { assert s[..0] == t[..0]; }
      if k :| 0 < k <= |s| && k < |t| && s[..k] == t[..k] { assert s[..k][0] == t[..k][0]; }
    } else {
      LessIsBefore(s[1..], t[1..]);
      BeforeBoth(s, t);
    }
  }

  lemma BeforeBoth(s: seq<Byte>, t: seq<Byte>)
    requires s != [] && t != [] && s[0] == t[0]
    ensures Before(s, t) <==> Before(s[1..], t[1..])
  {
    var u, v := s[1..], t[1..];
    if k :| 0 <= k <= |s| && k < |t| && s[..k] == t[..k] && (k < |s| ==> s[k] < t[k]) {
      assert k > 0;
      assert u[..k - 1] == s[..k][1..] && v[..k - 1] == t[..k][1..];
      assert 0 <= k - 1 <= |u| && k - 1 < |v| && (k - 1 < |u| ==> u[k - 1] < v[k - 1]);
    }
    if k :| 0 <= k <= |u| && k < |v| && u[..k] == v[..k] && (k < |u| ==> u[k] < v[k]) {
      assert s[..k + 1] == [s[0]] + u[..k] && t[..k + 1] == [t[0]] + v[..k];
      assert k + 1 <= |s| && k + 1 < |t| && (k + 1 < |s| ==> s[k + 1] < t[k + 1]);
    }
  }

  lemma CutsCompare(s: seq<Byte>, t: seq<Byte>)
    ensures CutAlike(s, t) <==> CStr(s) == CStr(t)
    ensures CutBefore(s, t) <==> StrLess(CStr(s), CStr(t))
  {
    hide IsCut, Before, CStr, StrLess;
    CutIs(s);
    CutIs(t);
    LessIsBefore(CStr(s), CStr(t));
    if c :| IsCut(s, c) && IsCut(t, c) {
      CutUnique(s, c, CStr(s));
      CutUnique(t, c, CStr(t));
    }
    if c, d :| IsCut(s, c) && IsCut(t, d) && Before(c, d) {
      CutUnique(s, c, CStr(s));
      CutUnique(t, d, CStr(t));
    }
  }

  lemma {:induction false} ReversedIsBackwards(s: seq<Byte>)
    ensures Reversed(s) == Backwards(s)
    decreases |s|
  {
    if s != [] {
      ReversedIsBackwards(s[1..]);
      var t := Backwards(s[1..]) + [s[0]];
      assert forall i :: 0 <= i < |s| ==> t[i] == Backwards(s)[i];
    }
  }

  /** Any two texts are in exactly one of three orders. */
  lemma {:induction false} ThreeOrders(s: seq<Byte>, t: seq<Byte>)
    ensures StrLess(s, t) || s == t || StrLess(t, s)
    ensures !(StrLess(s, t) && StrLess(t, s)) && !StrLess(s, s)
    decreases |s| + |t|
  {
    if s != [] && t != [] && s[0] == t[0] {
      ThreeOrders(s[1..], t[1..]);
      assert s == [s[0]] + s[1..] && t == [t[0]] + t[1..];
    }
    Irreflexive(s);
  }

  lemma {:induction false} Irreflexive(s: seq<Byte>)
    ensures !StrLess(s, s)
  {
    if s != [] { Irreflexive(s[1..]); }
  }

  // ----- the operators -----

  /** What a result shows of itself. */
  ghost predicate Shows(dec: Double -> Option<int>, r: Result<Value>, a: Answer) {
    match a
    case Known(p) => r.Ok? && View(dec, r.value) == Some(p)
    case Fails(f) => r == Err(f)
    case Open => true
  }

  lemma FlagShows(h: Host, dec: Double -> Option<int>, b: bool)
    requires Exact(h, dec)
    ensures Shows(dec, Ok(Flag(h, b)), Whether(b))
  {
    hide ExactSums, ExactProducts, ExactQuotients, ExactOrder, ExactTexts;
  }

  lemma SumsCompute(h: Host, dec: Double -> Option<int>, op: BinOp, x: Double, y: Double)
    requires ExactSums(h, dec) && dec(x).Some? && dec(y).Some? && (op == Add || op == Sub)
    ensures Shows(dec, Apply(h, op, Num(x), Num(y)), OnInts(op, dec(x).value, dec(y).value))
  {
    hide InRange, Power, Remainder;
    assert Summed(h, dec, x, y);
  }

  lemma ProductsCompute(h: Host, dec: Double -> Option<int>, op: BinOp, x: Double, y: Double)
    requires ExactProducts(h, dec) && dec(x).Some? && dec(y).Some? && (op == Mul || op == Pow)
    ensures Shows(dec, Apply(h, op, Num(x), Num(y)), OnInts(op, dec(x).value, dec(y).value))
  {
    hide InRange, Power, Remainder;
    var m, n := dec(x).value, dec(y).value;
    assert Multiplied(h, dec, x, y);
    if m * n == 0 { NoZeroFactor(m, n); }
  }

  lemma NoZeroFactor(m: int, n: int)
    ensures m * n == 0 <==> m == 0 || n == 0
  {
  }

  lemma QuotientsCompute(h: Host, dec: Double -> Option<int>, op: BinOp, x: Double, y: Double)
    requires ExactQuotients(h, dec) && dec(x).Some? && dec(y).Some? && (op == Div || op == Mod)
    ensures Shows(dec, Apply(h, op, Num(x), Num(y)), OnInts(op, dec(x).value, dec(y).value))
  {
    hide InRange, Power, Remainder;
    var m, n := dec(x).value, dec(y).value;
    assert n != 0 ==> Divided(h, dec, x, y);
    if n != 0 && m < 0 { RemainderZero(m, n); }
  }

  lemma RemainderZero(m: int, n: int)
    requires n != 0
    ensures Remainder(m, n) == 0 <==> m % n == 0
  {
    if m < 0 { NegatedDivides(m, n); }
  }

  lemma NegatedDivides(m: int, n: int)
    requires n != 0
    ensures m % n == 0 <==> -m % n == 0
  {
    if m % n == 0 { Multiple(-m, -(m / n), n); }
    if -m % n == 0 { Multiple(m, -(-m / n), n); }
  }

  lemma Multiple(m: int, q: int, n: int)
    requires n != 0 && m == q * n
    ensures m % n == 0
  {
    var r := m % n;
    assert r == (q - m / n) * n && 0 <= r && (r < n || r < -n);
    var k := q - m / n;
    Between(k, n, r);
  }

  lemma Between(k: int, n: int, r: int)
    requires r == k * n && 0 <= r && (r < n || r < -n)
    ensures r == 0
  {
    if k != 0 { assert k * n >= n || k * n <= -n || k * n >= -n; }
  }

  lemma OrderComputes(h: Host, dec: Double -> Option<int>, op: BinOp, x: Double, y: Double)
    requires ExactOrder(h, dec) && Faithful(h, dec) && dec(x).Some? && dec(y).Some?
    requires Fresh(op) || op == And || op == Or
    ensures Shows(dec, Apply(h, op, Num(x), Num(y)), OnInts(op, dec(x).value, dec(y).value))
  {
    hide InRange, Power, Remainder;
    assert Ordered(h, dec, x, y) && Ordered(h, dec, y, x);
  }

  lemma IntsCompute(h: Host, dec: Double -> Option<int>, op: BinOp, x: Double, y: Double)
    requires Exact(h, dec) && dec(x).Some? && dec(y).Some?
    ensures Shows(dec, Apply(h, op, Num(x), Num(y)), OnInts(op, dec(x).value, dec(y).value))
  {
    hide Faithful, ExactSums, ExactProducts, ExactQuotients, ExactOrder, ExactTexts, Apply, OnInts, Shows;
    if op == Add || op == Sub { SumsCompute(h, dec, op, x, y); }
    else if op == Mul || op == Pow { ProductsCompute(h, dec, op, x, y); }
    else if op == Div || op == Mod { QuotientsCompute(h, dec, op, x, y); }
    else { OrderComputes(h, dec, op, x, y); }
  }

  lemma TextsCompute(h: Host, dec: Double -> Option<int>, op: BinOp, s: seq<Byte>, t: seq<Byte>)
    requires Faithful(h, dec)
    ensures Shows(dec, Apply(h, op, Str(s), Str(t)), OnTexts(op, s, t))
  {
    hide InRange, CStr, StrLess, CutAlike, CutBefore;
    CutsCompare(s, t);
    CutsCompare(t, s);
  }

  lemma MixedCompute(h: Host, dec: Double -> Option<int>, op: BinOp, x: Double, t: seq<Byte>)
    requires ExactTexts(h, dec) && dec(x).Some?
    ensures var n := dec(x).value;
            Shows(dec, Apply(h, op, Num(x), Str(t)), OnIntAndText(op, n, Decimal(n) + t)) &&
            Shows(dec, Apply(h, op, Str(t), Num(x)), OnIntAndText(op, n, t + Decimal(n)))
  {
    hide InRange, CStr, StrLess, Decimal, NumberOf, AllDigits;
  }

  lemma NothingComputes(h: Host, dec: Double -> Option<int>, op: BinOp, v: Value)
    requires Faithful(h, dec)
    ensures Shows(dec, Apply(h, op, Unset, v), OnNothing(op, v.Num?))
    ensures Shows(dec, Apply(h, op, v, Unset), OnNothing(op, v.Num?))
  {
    hide InRange, CStr, StrLess;
  }

  /** Every operator on two values of any kind. */
  lemma OperatorComputes(h: Host, dec: Double -> Option<int>, op: BinOp, v: Value, w: Value)
    requires Exact(h, dec) && View(dec, v).Some? && View(dec, w).Some?
    ensures Shows(dec, Apply(h, op, v, w), OnPlain(op, View(dec, v).value, View(dec, w).value))
  {
    hide Faithful, ExactSums, ExactProducts, ExactQuotients, ExactOrder, ExactTexts, Apply, OnInts, OnTexts,
         OnIntAndText, OnNothing, Shows;
    if v.Num? && w.Num? { IntsCompute(h, dec, op, v.d, w.d); }
    else if v.Str? && w.Str? { TextsCompute(h, dec, op, v.s, w.s); }
    else if v.Num? && w.Str? { MixedCompute(h, dec, op, v.d, w.s); }
    else if v.Str? && w.Num? { MixedCompute(h, dec, op, w.d, v.s); }
    else if v.Unset? { NothingComputes(h, dec, op, w); }
    else { NothingComputes(h, dec, op, v); }
  }

  lemma InvertComputes(h: Host, dec: Double -> Option<int>, v: Value)
    requires Exact(h, dec) && View(dec, v).Some?
    ensures var p := View(dec, v).value;
            Shows(dec, Invert(h, v), if p.Int? then Whether(p.n == 0) else Fails(RuntimeError))
  {
    hide ExactSums, ExactProducts, ExactQuotients, ExactTexts, InRange;
    if v.Num? { assert Ordered(h, dec, v.d, v.d); }
  }

  lemma NegateComputes(h: Host, dec: Double -> Option<int>, v: Value)
    requires Exact(h, dec) && View(dec, v).Some?
    ensures match View(dec, v).value
            case Int(n) => n != 0 ==> Shows(dec, Negate(h, v), Known(Int(-n)))
            case Chars(s) => Shows(dec, Negate(h, v), Known(Chars(Backwards(s))))
            case Nothing => Negate(h, v) == Err(RuntimeError)
  {
    hide ExactOrder, ExactProducts, ExactQuotients, ExactTexts, InRange, Faithful, Backwards;
    if v.Str? { ReversedIsBackwards(v.s); }
    if v.Num? { assert Summed(h, dec, v.d, v.d); }
  }

  /** A condition holds for numbers other than 0 and for texts with a character in them. */
  lemma TruthComputes(h: Host, dec: Double -> Option<int>, v: Value)
    requires Exact(h, dec) && View(dec, v).Some?
    ensures Truth(h, v) == match View(dec, v).value case Int(n) => n != 0 case Chars(s) => |s| > 0 case Nothing => false
  {
    hide ExactSums, ExactProducts, ExactQuotients, ExactTexts, InRange, Faithful;
    if v.Num? { assert Ordered(h, dec, v.d, v.d); }
  }

  lemma BumpComputes(h: Host, dec: Double -> Option<int>, up: bool, v: Value)
    requires Exact(h, dec) && View(dec, v).Some?
    ensures var p := View(dec, v).value;
            Shows(dec, Values.Bump(h, up, v),
                  if p.Int? then Bounded(if up then p.n + 1 else p.n - 1) else Fails(RuntimeError))
  {
    hide ExactOrder, ExactProducts, ExactQuotients, ExactTexts, InRange;
    if v.Num? { assert Summed(h, dec, v.d, h.one); }
  }

  /** Of `<`, `==` and `>` exactly one holds between two texts. */
  lemma TextsAreOrdered(h: Host, s: seq<Byte>, t: seq<Byte>)
    requires h.zero != h.one
    ensures var yes := Ok(Num(h.one));
            var lt, eq, gt := Apply(h, Lt, Str(s), Str(t)) == yes, Apply(h, Eq, Str(s), Str(t)) == yes,
                Apply(h, Gt, Str(s), Str(t)) == yes;
            (lt || eq || gt) && !(lt && eq) && !(lt && gt) && !(eq && gt)
  {
    hide StrLess, CStr;
    ThreeOrders(CStr(s), CStr(t));
    ThreeOrders(CStr(t), CStr(s));
  }

  // ----- expressions -----

  /** What evaluation makes of an expression. */
  ghost predicate Yields(dec: Double -> Option<int>, o: Outcome<Item>, w: World, a: Answer) {
    match a
    case Known(p) => o.Done? && o.w == w && View(dec, o.value.v) == Some(p)
    case Fails(f) => o == Fail(f)
    case Open => true
  }

  lemma ResultYields(dec: Double -> Option<int>, r: Result<Value>, from: Option<Name>, w: World, a: Answer)
    requires Shows(dec, r, a)
    ensures Yields(dec, FromResult(r, from, w), w, a)
  {
  }

  lemma BinaryYields(h: Host, dec: Double -> Option<int>, fns: map<Name, Fn>, e: Expr, w: World, d: nat, fuel: nat)
    requires Exact(h, dec) && e.Bin?
    requires Yields(dec, Evaluate(h, fns, e.l, w, d, fuel), w, ValueOf(Views(dec, w.vars), e.l))
    requires Yields(dec, Evaluate(h, fns, e.r, w, d, fuel), w, ValueOf(Views(dec, w.vars), e.r))
    ensures Yields(dec, Evaluate(h, fns, e, w, d, fuel), w, ValueOf(Views(dec, w.vars), e))
  {
    hide Exact, View, OnPlain, Apply, Shows, Views;
    var p, q := ValueOf(Views(dec, w.vars), e.l), ValueOf(Views(dec, w.vars), e.r);
    if p.Known? && q.Known? {
      var a, b := Evaluate(h, fns, e.l, w, d, fuel), Evaluate(h, fns, e.r, w, d, fuel);
      OperatorComputes(h, dec, e.op, a.value.v, b.value.v);
      ResultYields(dec, Apply(h, e.op, a.value.v, b.value.v), if Fresh(e.op) then None else a.value.from, w,
                   OnPlain(e.op, p.p, q.p));
    }
  }

  lemma UnaryYields(h: Host, dec: Double -> Option<int>, fns: map<Name, Fn>, e: Expr, w: World, d: nat, fuel: nat)
    requires Exact(h, dec) && (e.Not? || e.Minus?)
    requires Yields(dec, Evaluate(h, fns, e.e, w, d, fuel), w, ValueOf(Views(dec, w.vars), e.e))
    ensures Yields(dec, Evaluate(h, fns, e, w, d, fuel), w, ValueOf(Views(dec, w.vars), e))
  {
    hide Exact, View, Shows, Whether, Backwards, Views, Invert, Negate;
    var p, a := ValueOf(Views(dec, w.vars), e), Evaluate(h, fns, e.e, w, d, fuel);
    if ValueOf(Views(dec, w.vars), e.e).Known? {
      var r := if e.Not? then Invert(h, a.value.v) else Negate(h, a.value.v);
      InvertComputes(h, dec, a.value.v);
      NegateComputes(h, dec, a.value.v);
      NothingFails(dec, r);
      if p != Open { ResultYields(dec, r, a.value.from, w, p); }
    }
  }

  /** Evaluation computes the value of every expression whose value whole numbers decide: on any such host, at any
      level, with any fuel. */
  lemma {:induction false} EvaluateComputes(h: Host, dec: Double -> Option<int>, fns: map<Name, Fn>, e: Expr, w: World,
                                            d: nat, fuel: nat)
    requires Exact(h, dec)
    ensures Yields(dec, Evaluate(h, fns, e, w, d, fuel), w, ValueOf(Views(dec, w.vars), e))
    decreases e
  {
    hide Exact, View, OnPlain, Apply, Shows, Whether, Backwards, Yields;
    match e
    case Bin(op, l, r) =>
      EvaluateComputes(h, dec, fns, l, w, d, fuel);
      EvaluateComputes(h, dec, fns, r, w, d, fuel);
      BinaryYields(h, dec, fns, e, w, d, fuel);
    case Not(x) =>
      EvaluateComputes(h, dec, fns, x, w, d, fuel);
      UnaryYields(h, dec, fns, e, w, d, fuel);
    case Minus(x) =>
      EvaluateComputes(h, dec, fns, x, w, d, fuel);
      UnaryYields(h, dec, fns, e, w, d, fuel);
    case _ => LeafYields(h, dec, fns, e, w, d, fuel);
  }

  lemma LeafYields(h: Host, dec: Double -> Option<int>, fns: map<Name, Fn>, e: Expr, w: World, d: nat, fuel: nat)
    requires Exact(h, dec) && !e.Bin? && !e.Not? && !e.Minus?
    ensures Yields(dec, Evaluate(h, fns, e, w, d, fuel), w, ValueOf(Views(dec, w.vars), e))
  {
    hide Exact, View, AllDigits, NumberOf;
    if e.Number? { LiteralShows(h, dec, e.token); }
    TextShows(dec, if e.Quoted? then e.text else []);
  }

  lemma NothingFails(dec: Double -> Option<int>, r: Result<Value>)
    ensures r == Err(RuntimeError) ==> Shows(dec, r, Fails(RuntimeError))
  {
  }

  lemma TextShows(dec: Double -> Option<int>, t: seq<Byte>)
    ensures View(dec, Str(t)) == Some(Chars(t)) && View(dec, Unset) == Some(Nothing)
  {
  }

  lemma LiteralShows(h: Host, dec: Double -> Option<int>, t: seq<Byte>)
    requires Exact(h, dec)
    ensures AllDigits(t) && t != [] && NumberOf(t) <= LIMIT ==> View(dec, Num(h.strtod(t))) == Some(Int(NumberOf(t)))
  {
    hide ExactSums, ExactProducts, ExactQuotients, ExactOrder, NumberOf, AllDigits;
  }

  // ----- expressions with effects -----

  /** Counting a variable changes it by one, and is worth its new value. */
  lemma CountComputes(h: Host, dec: Double -> Option<int>, fns: map<Name, Fn>, up: bool, x: Name, w: World, d: nat,
                      fuel: nat)
    requires Exact(h, dec) && x in w.vars && w.vars[x].Num? && dec(w.vars[x].d).Some?
    requires -LIMIT < dec(w.vars[x].d).value < LIMIT
    ensures var o, n := Evaluate(h, fns, Expr.Bump(up, Ref(x)), w, d, fuel), dec(w.vars[x].d).value;
            o.Done? && View(dec, o.value.v) == Some(Int(if up then n + 1 else n - 1)) &&
            o.w == w.(vars := w.vars[x := o.value.v])
  {
    hide Exact;
    BumpComputes(h, dec, up, w.vars[x]);
    assert Evaluate(h, fns, Ref(x), w, d, fuel) == Done(Item(w.vars[x], Some(x)), w);
    hide Evaluate;
    CountsItem(h, fns, up, x, w, d, fuel);
  }

  lemma CountsItem(h: Host, fns: map<Name, Fn>, up: bool, x: Name, w: World, d: nat, fuel: nat)
    requires x in w.vars && w.vars[x].Num? && Values.Bump(h, up, w.vars[x]).Ok?
    ensures var v := Values.Bump(h, up, w.vars[x]).value;
            Evaluate(h, fns, Expr.Bump(up, Ref(x)), w, d, fuel) ==
            Done(Item(v, Some(x)), w.(vars := w.vars[x := v]))
  {
    assert Evaluate(h, fns, Ref(x), w, d, fuel) == Done(Item(w.vars[x], Some(x)), w);
  }

  /** An assignment gives the variable the value on its right, and is itself worth what the variable was before. */
  lemma AssignComputes(h: Host, dec: Double -> Option<int>, fns: map<Name, Fn>, x: Name, e: Expr, w: World, d: nat,
                       fuel: nat)
    requires Exact(h, dec) && x in w.vars && ValueOf(Views(dec, w.vars), e).Known?
    ensures var o := Evaluate(h, fns, Expr.Assign(Ref(x), e), w, d, fuel);
            o.Done? && o.value.v == w.vars[x] && o.w.out == w.out && x in o.w.vars && o.w.vars - {x} == w.vars - {x} &&
            View(dec, o.w.vars[x]) == Some(ValueOf(Views(dec, w.vars), e).p)
  {
    hide Exact, ValueOf, View;
    EvaluateComputes(h, dec, fns, e, w, d, fuel);
    assert Evaluate(h, fns, Ref(x), w, d, fuel) == Done(Item(w.vars[x], Some(x)), w);
    var v := Evaluate(h, fns, e, w, d, fuel).value.v;
    assert w.vars[x := v] - {x} == w.vars - {x};
  }
}
