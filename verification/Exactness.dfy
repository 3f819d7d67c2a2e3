/** Eight bytes are enough to compute with whole numbers up to 2^53: a host of the kind that the results on whole
    numbers speak about. */
module Exactness {
  import opened Bytes
  import opened Values
  import opened Whole

  // ----- numbers in base 256 -----

  function Low(n: nat, k: nat): (t: seq<Byte>)
    ensures |t| == k
  {
    if k == 0 then [] else [n % 256] + Low(n / 256, k - 1)
  }

  function Base(t: seq<Byte>): (n: nat) {
    if t == [] then 0 else t[0] as int + 256 * Base(t[1..])
  }

  function Size(k: nat): (r: nat) {
    if k == 0 then 1 else 256 * Size(k - 1)
  }

  lemma {:induction false} BaseLow(n: nat, k: nat)
    requires n < Size(k)
    ensures Base(Low(n, k)) == n
    decreases k
  {
    if k > 0 {
      BaseLow(n / 256, k - 1);
      assert Low(n, k)[1..] == Low(n / 256, k - 1);
    }
  }

  lemma {:induction false} BaseUnique(t: seq<Byte>, u: seq<Byte>)
    requires |t| == |u| && Base(t) == Base(u)
    ensures t == u
    decreases |t|
  {
    if t != [] {
      BaseUnique(t[1..], u[1..]);
      assert t == [t[0]] + t[1..] && u == [u[0]] + u[1..];
    }
  }

  // ----- the host -----

  function Encode(n: int): (d: Double) {
    if InRange(n) then Low(n + LIMIT, 8) else Low(2 * LIMIT + 1, 8)
  }

  function Decode(d: Double): (n: Option<int>) {
    if Base(d) <= 2 * LIMIT then Some(Base(d) - LIMIT) else None
  }

  lemma DecodeEncode(n: int)
    ensures Decode(Encode(n)) == if InRange(n) then Some(n) else None
  {
    assert Size(4) == 0x1_0000_0000;
    assert Size(8) == 0x1_0000_0000 * Size(4);
    BaseLow(if InRange(n) then n + LIMIT else 2 * LIMIT + 1, 8);
  }

  lemma DecodeUnique(x: Double, y: Double)
    requires Decode(x).Some? && Decode(x) == Decode(y)
    ensures x == y
  {
    BaseUnique(x, y);
  }

  /** An operation on whole numbers; the largest code stands for everything else. */
  function Lifted(f: (int, int) -> int): (g: (Double, Double) -> Double) {
    (x: Double, y: Double) => Applied(f, x, y)
  }

  function Applied(f: (int, int) -> int, x: Double, y: Double): (d: Double) {
    var a, b := Decode(x), Decode(y);
    Encode(if a.Some? && b.Some? then f(a.value, b.value) else LIMIT + 1)
  }

  function Compared(p: (int, int) -> bool): (g: (Double, Double) -> bool) {
    (x: Double, y: Double) => var a, b := Decode(x), Decode(y); a.Some? && b.Some? && p(a.value, b.value)
  }

  function Quotient(m: int, n: int): (r: int) {
    if n == 0 then 0 else m / n
  }

  function Rest(m: int, n: int): (r: int) {
    if n == 0 then 0 else Remainder(m, n)
  }

  function Raised(m: int, n: int): (r: int) {
    if n < 0 then 0 else Power(m, n)
  }

  function Read(t: seq<Byte>): (d: Double) {
    Encode(if AllDigits(t) then NumberOf(t) else LIMIT + 1)
  }

  function Shown(x: Double): (t: seq<Byte>) {
    match Decode(x)
    case None => []
    case Some(n) => Decimal(n)
  }

  function Negated(x: Double): (d: Double) {
    match Decode(x)
    case None => x
    case Some(n) => Encode(-n)
  }

  predicate NotZero(x: Double) {
    Decode(x) != Some(0)
  }

  function Calculator(): (h: Host) {
    Host(Encode(0), Encode(1), Lifted((m, n) => m + n), Lifted((m, n) => m - n), Lifted((m, n) => m * n),
         Lifted(Quotient), Lifted(Raised), Lifted(Rest), Negated,
         Compared((m, n) => m < n), Compared((m, n) => m <= n), NotZero,
         NotZero, Shown, Read, (lib, fn, vs) => Err(Unmodelled))
  }

  lemma InRangeAlways(x: Double)
    requires Decode(x).Some?
    ensures InRange(Decode(x).value)
  {
  }

  lemma CalculatorFaithful()
    ensures Faithful(Calculator(), Decode)
  {
    hide Encode, Lifted, Compared;
    DecodeEncode(0);
    DecodeEncode(1);
    forall x, y | Decode(x).Some? && Decode(x) == Decode(y) ensures x == y { DecodeUnique(x, y); }
  }

  lemma SumsOf(x: Double, y: Double)
    requires Decode(x).Some? && Decode(y).Some?
    ensures Summed(Calculator(), Decode, x, y)
  {
    hide Encode, Decode;
    var m, n := Decode(x).value, Decode(y).value;
    InRangeAlways(x);
    DecodeEncode(0);
    DecodeEncode(m + n);
    DecodeEncode(m - n);
    DecodeEncode(-m);
  }

  lemma CalculatorSums()
    ensures ExactSums(Calculator(), Decode)
  {
    hide Encode, Decode, Calculator, Summed;
    forall x, y | Decode(x).Some? && Decode(y).Some? ensures Summed(Calculator(), Decode, x, y) {
      SumsOf(x, y);
    }
  }

  lemma ProductsOf(x: Double, y: Double)
    requires Decode(x).Some? && Decode(y).Some?
    ensures Multiplied(Calculator(), Decode, x, y)
  {
    hide Encode, Decode, Power, InRange;
    var m, n := Decode(x).value, Decode(y).value;
    DecodeEncode(m * n);
    DecodeEncode(Raised(m, n));
  }

  lemma CalculatorProducts()
    ensures ExactProducts(Calculator(), Decode)
  {
    hide Encode, Decode, Calculator, Multiplied;
    forall x, y | Decode(x).Some? && Decode(y).Some? ensures Multiplied(Calculator(), Decode, x, y) {
      ProductsOf(x, y);
    }
  }

  lemma SmallQuotient(m: int, n: int)
    requires InRange(m) && InRange(n) && n != 0
    ensures (m % n == 0 ==> InRange(m / n)) && InRange(Remainder(m, n))
  {
    if m % n == 0 { SmallFactor(m, n, m / n); }
  }

  lemma SmallFactor(m: int, n: int, q: int)
    requires m == q * n && n != 0 && InRange(m)
    ensures InRange(q)
  {
    if q > 0 { assert q * n >= q || q * n <= -q; }
    if q < 0 { assert q * n <= q || q * n >= -q; }
  }

  lemma QuotientsOf(x: Double, y: Double)
    requires Decode(x).Some? && Decode(y).Some? && Decode(y).value != 0
    ensures Divided(Calculator(), Decode, x, y)
  {
    hide Encode, Decode, Remainder, InRange;
    var m, n := Decode(x).value, Decode(y).value;
    InRangeAlways(x);
    InRangeAlways(y);
    SmallQuotient(m, n);
    DecodeEncode(Quotient(m, n));
    DecodeEncode(Rest(m, n));
  }

  lemma CalculatorQuotients()
    ensures ExactQuotients(Calculator(), Decode)
  {
    hide Encode, Decode, Calculator, Divided;
    forall x, y | Decode(x).Some? && Decode(y).Some? && Decode(y).value != 0
      ensures Divided(Calculator(), Decode, x, y)
    {
      QuotientsOf(x, y);
    }
  }

  lemma OrderOf(x: Double, y: Double)
    requires Decode(x).Some? && Decode(y).Some?
    ensures Ordered(Calculator(), Decode, x, y)
  {
    hide Encode, Decode;
    DecodeEncode(0);
  }

  lemma CalculatorOrder()
    ensures ExactOrder(Calculator(), Decode)
  {
    hide Encode, Decode, Calculator, Ordered;
    forall x, y | Decode(x).Some? && Decode(y).Some? ensures Ordered(Calculator(), Decode, x, y) {
      OrderOf(x, y);
    }
  }

  lemma CalculatorTexts()
    ensures ExactTexts(Calculator(), Decode)
  {
    hide Encode, Decode, Decimal, NumberOf, AllDigits;
    var h := Calculator();
    forall t | AllDigits(t) && t != [] && NumberOf(t) <= LIMIT ensures Decode(h.strtod(t)) == Some(NumberOf(t)) {
      DecodeEncode(NumberOf(t));
    }
  }

  /** There is such a host. */
  lemma CalculatorIsExact()
    ensures Exact(Calculator(), Decode)
  {
    hide Calculator, Faithful, ExactSums, ExactProducts, ExactQuotients, ExactOrder, ExactTexts;
    CalculatorFaithful();
    CalculatorSums();
    CalculatorProducts();
    CalculatorQuotients();
    CalculatorOrder();
    CalculatorTexts();
  }
}
