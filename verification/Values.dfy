/** core/operator.c on numbers and strings: what each operator makes of its operands. */
module Values {
  import opened Bytes

  /** Unset is VAR_UNSET; Null is the VAR_STRING without data that `var x` creates. */
  datatype Value = Unset | Null | Num(d: Double) | Str(s: seq<Byte>)

  /** The floating-point unit, number formatting and foreign functions: any total functions will do. */
  datatype Host = Host(
    zero: Double,
    one: Double,
    add: (Double, Double) -> Double,
    sub: (Double, Double) -> Double,
    mul: (Double, Double) -> Double,
    div: (Double, Double) -> Double,
    pow: (Double, Double) -> Double,
    fmod: (Double, Double) -> Double,
    neg: Double -> Double,
    less: (Double, Double) -> bool,
    lessEq: (Double, Double) -> bool,
    nonZero: Double -> bool,
    aboveThreshold: Double -> bool,
    format: Double -> seq<Byte>,
    strtod: seq<Byte> -> Double,
    foreign: (Name, Name, seq<Value>) -> Result<Value>
  )

  function Flag(h: Host, b: bool): (v: Value) {
    Num(if b then h.one else h.zero)
  }

  /** The C string held in a buffer: everything before the first zero byte. */
  function CStr(s: seq<Byte>): (r: seq<Byte>) {
    if s == [] || s[0] == NUL then [] else [s[0]] + CStr(s[1..])
  }

  /** strcmp(a, b) < 0 on C strings. */
  predicate StrLess(a: seq<Byte>, b: seq<Byte>) {
    b != [] && (a == [] || a[0] < b[0] || (a[0] == b[0] && StrLess(a[1..], b[1..])))
  }

  function Reversed<T>(s: seq<T>): (r: seq<T>)
    ensures |r| == |s|
  {
    if s == [] then [] else Reversed(s[1..]) + [s[0]]
  }

  datatype BinOp = Or | And | Eq | Ne | Lt | Le | Gt | Ge | Add | Sub | Mul | Div | Mod | Pow

  /** op_add: concatenation, number formatting, or addition. */
  function AddValues(h: Host, a: Value, b: Value): (r: Result<Value>) {
    match (a, b)
    case (Str(x), Str(y)) => Ok(Str(x + y))
    case (Num(x), Num(y)) => Ok(Num(h.add(x, y)))
    case (Str(x), Num(y)) => Ok(Str(x + h.format(y)))
    case (Num(x), Str(y)) => Ok(Str(h.format(x) + y))
    case (Unset, _) => Err(RuntimeError)
    case (_, Unset) => Err(RuntimeError)
    case _ => Err(Undefined)
  }

  /** op_subtract, op_multiply, op_divide: numbers only. */
  function Arithmetic(f: (Double, Double) -> Double, a: Value, b: Value): (r: Result<Value>) {
    if a.Num? && b.Num? then Ok(Num(f(a.d, b.d))) else Err(RuntimeError)
  }

  /** op_power, op_modulo: the guard accepts one number, the access needs two. */
  function Loose(f: (Double, Double) -> Double, a: Value, b: Value): (r: Result<Value>) {
    if a.Num? && b.Num? then Ok(Num(f(a.d, b.d)))
    else if a.Num? || b.Num? then Err(Undefined)
    else Err(RuntimeError)
  }

  /** op_and, op_or: the same guard; truth is an absolute value of at least 1e-10. */
  function Logic(h: Host, op: BinOp, a: Value, b: Value): (r: Result<Value>) {
    if a.Num? && b.Num? then
      var x, y := h.aboveThreshold(a.d), h.aboveThreshold(b.d);
      Ok(Flag(h, if op == And then x && y else x || y))
    else if a.Num? || b.Num? then Err(Undefined)
    else Err(RuntimeError)
  }

  /** var_cmp: numbers by their eight bytes, strings by strcmp, VAR_UNSET never equal. */
  function Equal(a: Value, b: Value): (r: Result<bool>) {
    match (a, b)
    case (Num(x), Num(y)) => Ok(x == y)
    case (Str(x), Str(y)) => Ok(CStr(x) == CStr(y))
    case (Unset, _) => Ok(false)
    case (_, Unset) => Ok(false)
    case (Num(_), _) => Err(RuntimeError)
    case (_, Num(_)) => Err(RuntimeError)
    case _ => Err(Undefined)
  }

  /** var_is_less, and var_is_more with the operands exchanged. */
  function Less(h: Host, a: Value, b: Value): (r: Result<bool>) {
    match (a, b)
    case (Num(x), Num(y)) => Ok(h.less(x, y))
    case (Str(x), Str(y)) => Ok(StrLess(CStr(x), CStr(y)))
    case (Unset, _) => Err(RuntimeError)
    case (_, Unset) => Err(RuntimeError)
    case (Num(_), _) => Err(RuntimeError)
    case (_, Num(_)) => Err(RuntimeError)
    case _ => Err(Undefined)
  }

  /** var_is_less_equal, and var_is_more_equal with the operands exchanged: numbers only. */
  function LessEqual(h: Host, a: Value, b: Value): (r: Result<bool>) {
    if a.Num? && b.Num? then Ok(h.lessEq(a.d, b.d)) else Err(RuntimeError)
  }

  function AsFlag(h: Host, r: Result<bool>): (v: Result<Value>) {
    match r
    case Ok(b) => Ok(Flag(h, b))
    case Err(f) => Err(f)
  }

  function Apply(h: Host, op: BinOp, a: Value, b: Value): (r: Result<Value>) {
    match op
    case Or => Logic(h, op, a, b)
    case And => Logic(h, op, a, b)
    case Eq => AsFlag(h, Equal(a, b))
    case Ne => (match Equal(a, b) case Ok(x) => Ok(Flag(h, !x)) case Err(f) => Err(f))
    case Lt => AsFlag(h, Less(h, a, b))
    case Le => AsFlag(h, LessEqual(h, a, b))
    case Gt => AsFlag(h, Less(h, b, a))
    case Ge => AsFlag(h, LessEqual(h, b, a))
    case Add => AddValues(h, a, b)
    case Sub => Arithmetic(h.sub, a, b)
    case Mul => Arithmetic(h.mul, a, b)
    case Div => Arithmetic(h.div, a, b)
    case Mod => Loose(h.fmod, a, b)
    case Pow => Loose(h.pow, a, b)
  }

  /** Comparison operators build a new operand; the others rewrite the left one in place. */
  predicate Fresh(op: BinOp) {
    op == Eq || op == Ne || op == Lt || op == Le || op == Gt || op == Ge
  }

  /** op_unary_minus: numbers are negated, strings reversed. */
  function Negate(h: Host, a: Value): (r: Result<Value>) {
    match a
    case Num(d) => Ok(Num(h.neg(d)))
    case Str(s) => Ok(Str(Reversed(s)))
    case Null => Err(Undefined)
    case Unset => Err(RuntimeError)
  }

  /** op_invert */
  function Invert(h: Host, a: Value): (r: Result<Value>) {
    if a.Num? then Ok(Flag(h, !h.nonZero(a.d))) else Err(RuntimeError)
  }

  /** op_increment and op_decrement on the operand itself. */
  function Bump(h: Host, up: bool, a: Value): (r: Result<Value>) {
    if a.Num? then Ok(Num(if up then h.add(a.d, h.one) else h.sub(a.d, h.one))) else Err(RuntimeError)
  }

  /** var_is_true */
  function Truth(h: Host, a: Value): (b: bool) {
    match a
    case Num(d) => h.nonZero(d)
    case Str(s) => s != []
    case Null => false
    case Unset => false
  }
}
