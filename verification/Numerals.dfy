/** What the reader takes for a number, letter by letter. */
module Numerals {
  import opened Bytes
  import opened Grammar
  import opened Rendering
  import opened Whole

  /** A number as it is written: sign, digits, point, digits, exponent with sign and digits; all may be missing. */
  datatype Numeral = Numeral(sign: seq<Byte>, whole: seq<Byte>, point: seq<Byte>, part: seq<Byte>, e: seq<Byte>,
                             esign: seq<Byte>, exponent: seq<Byte>)

  /** '+' or '-' */
  predicate SignOrNone(t: seq<Byte>) {
    t == [] || t == [43] || t == [45]
  }

  predicate WellFormed(n: Numeral) {
    SignOrNone(n.sign) && AllDigits(n.whole) && (n.point == [] || n.point == [46]) && AllDigits(n.part) &&
    (n.point == [] ==> n.part == []) && (n.e == [] || n.e == [101] || n.e == [69]) && SignOrNone(n.esign) &&
    AllDigits(n.exponent) && (n.e == [] ==> n.esign == [] && n.exponent == [])
  }

  function Spelled(n: Numeral): (t: seq<Byte>) {
    n.sign + (n.whole + (n.point + (n.part + (n.e + (n.esign + n.exponent)))))
  }

  /** The character c cannot go on with the number: no digit, and nothing that the next missing part could be. */
  predicate Ended(n: Numeral, c: Byte) {
    !(48 <= c <= 57) && (n.e == [] ==> c != 101 && c != 69) && (n.point + n.e == [] ==> c != 46) &&
    (Spelled(n) == [] || (n.e != [] && n.esign + n.exponent == []) ==> c != 43 && c != 45)
  }

  lemma {:induction false} DigitsAt(s: Input, pos: nat, t: seq<Byte>)
    requires At(s, pos, t) && AllDigits(t) && pos + |t| < |s| && !(48 <= s[pos + |t|] <= 57)
    ensures Digits(s, pos) == pos + |t|
    decreases |t|
  {
    if t != [] {
      assert s[pos] == t[0];
      AtSplit(s, pos, [t[0]], t[1..]) by { assert t == [t[0]] + t[1..]; }
      assert forall i :: 0 <= i < |t[1..]| ==> t[1..][i] == t[i + 1];
      DigitsAt(s, pos + 1, t[1..]);
    }
  }

  /** The first character of t at pos, or the one behind it. */
  lemma Ahead(s: Input, pos: nat, t: seq<Byte>)
    requires At(s, pos, t) && pos + |t| < |s|
    ensures s[pos] == if t == [] then s[pos + |t|] else t[0]
  {
  }

  lemma DigitsStop(s: Input, b: nat)
    requires b < |s| && !(48 <= s[b] <= 57)
    ensures Digits(s, b) == b
  {
  }

  /** An exponent behind its letter. */
  lemma ExponentAt(s: Input, pos: nat, esign: seq<Byte>, digits: seq<Byte>)
    requires pos < |s| && (s[pos] == 101 || s[pos] == 69) && SignOrNone(esign) && AllDigits(digits)
    requires At(s, pos + 1, esign) && At(s, pos + 1 + |esign|, digits)
    requires var q := pos + 1 + |esign| + |digits|;
             q < |s| && !(48 <= s[q] <= 57) && (esign + digits == [] ==> s[q] != 43 && s[q] != 45)
    ensures Digits(s, Exponent(s, pos)) == pos + 1 + |esign| + |digits|
  {
    hide Digits;
    DigitsAt(s, pos + 1 + |esign|, digits);
    hide AllDigits;
    Ahead(s, pos + 1 + |esign|, digits);
    if esign != [] { Ahead(s, pos + 1, esign); }
  }

  lemma ExponentRead(s: Input, pos: nat, n: Numeral)
    requires WellFormed(n) && At(s, pos, n.e + (n.esign + n.exponent))
    requires var q := pos + |n.e + (n.esign + n.exponent)|; q < |s| && Ended(n, s[q])
    ensures Digits(s, Exponent(s, pos)) == pos + |n.e + (n.esign + n.exponent)|
  {
    hide Digits, AllDigits;
    if n.e == [] {
      assert n.e + (n.esign + n.exponent) == [];
      DigitsStop(s, pos);
    } else {
      AtSplit(s, pos, n.e, n.esign + n.exponent);
      Ahead(s, pos, n.e);
      AtSplit(s, pos + 1, n.esign, n.exponent);
      hide At;
      ExponentAt(s, pos, n.esign, n.exponent);
    }
  }

  /** Sign and digits in front of the point. */
  lemma WholeRead(s: Input, pos: nat, sign: seq<Byte>, digits: seq<Byte>, rest: seq<Byte>)
    requires SignOrNone(sign) && AllDigits(digits) && At(s, pos, sign + (digits + rest))
    requires var q := pos + |sign| + |digits|;
             q + |rest| < |s| && !(48 <= s[q] <= 57) && (sign + digits == [] ==> s[q] != 43 && s[q] != 45)
    ensures Digits(s, Optional(s, pos, IsSign(s[pos]))) == pos + |sign| + |digits|
  {
    hide Digits;
    AtSplit(s, pos, sign, digits + rest);
    AtSplit(s, pos + |sign|, digits, rest);
    DigitsAt(s, pos + |sign|, digits);
    hide AllDigits;
    Ahead(s, pos + |sign|, digits);
    if sign != [] { Ahead(s, pos, sign); }
  }

  /** Point and digits behind it. */
  lemma PartRead(s: Input, pos: nat, point: seq<Byte>, digits: seq<Byte>, rest: seq<Byte>)
    requires (point == [46] || (point == [] && digits == [])) && AllDigits(digits)
    requires At(s, pos, point + (digits + rest))
    requires var q := pos + |point| + |digits|; q + |rest| < |s| && !(48 <= s[q] <= 57) && (point == [] ==> s[q] != 46)
    ensures Digits(s, Optional(s, pos, s[pos] == DOT)) == pos + |point| + |digits|
  {
    hide Digits;
    AtSplit(s, pos, point, digits + rest);
    AtSplit(s, pos + |point|, digits, rest);
    DigitsAt(s, pos + |point|, digits);
    hide AllDigits;
    if point != [] { Ahead(s, pos, point); }
  }

  /** Every numeral that cannot go on is read to its end. */
  lemma NumeralRead(s: Input, pos: nat, n: Numeral)
    requires WellFormed(n) && At(s, pos, Spelled(n)) && pos + |Spelled(n)| < |s| && Ended(n, s[pos + |Spelled(n)|])
    ensures NumberEnd(s, pos) == pos + |Spelled(n)|
  {
    hide Digits, Exponent, AllDigits;
    var t5 := n.e + (n.esign + n.exponent);
    var t3 := n.point + (n.part + t5);
    var p2 := pos + |n.sign| + |n.whole|;
    var p4 := p2 + |n.point| + |n.part|;
    AtSplit(s, pos, n.sign, n.whole + t3);
    AtSplit(s, pos + |n.sign|, n.whole, t3);
    AtSplit(s, p2, n.point, n.part + t5);
    AtSplit(s, p2 + |n.point|, n.part, t5);
    Ahead(s, p2, t3);
    Ahead(s, p4, t5);
    hide At;
    WholeRead(s, pos, n.sign, n.whole, t3);
    PartRead(s, p2, n.point, n.part, t5);
    ExponentRead(s, p4, n);
  }

  lemma {:induction false} DigitsFirst(s: Input, pos: nat)
    requires pos < |s|
    ensures AllDigits(s[pos..Digits(s, pos)]) && !(48 <= s[Digits(s, pos)] <= 57)
    decreases |s| - pos
  {
    if 48 <= s[pos] <= 57 {
      DigitsFirst(s, pos + 1);
      assert s[pos..Digits(s, pos)] == [s[pos]] + s[pos + 1..Digits(s, pos)];
    }
  }

  lemma FoundExponent(s: Input, d: nat) returns (f: nat, g: nat)
    requires d < |s|
    ensures var end := Digits(s, Exponent(s, d));
            d <= f <= g <= end < |s| && AllDigits(s[g..end]) && !(48 <= s[end] <= 57) && SignOrNone(s[f..g])
    ensures var end := Digits(s, Exponent(s, d));
            if s[d] == 101 || s[d] == 69 then f == d + 1 && (g == end && f == g ==> s[end] != 43 && s[end] != 45)
            else f == d && (!(48 <= s[d] <= 57) ==> end == d)
  {
    hide Digits, AllDigits;
    g := Exponent(s, d);
    f := if s[d] == 101 || s[d] == 69 then d + 1 else d;
    DigitsFirst(s, g);
    if !(48 <= s[d] <= 57) && f == d { DigitsStop(s, d); }
  }

  function Sliced(s: Input, p0: nat, p1: nat, p2: nat, p3: nat, p4: nat, p5: nat, p6: nat, p7: nat): (n: Numeral)
    requires p0 <= p1 <= p2 <= p3 <= p4 <= p5 <= p6 <= p7 <= |s|
  {
    Numeral(s[p0..p1], s[p1..p2], s[p2..p3], s[p3..p4], s[p4..p5], s[p5..p6], s[p6..p7])
  }

  lemma Cut(s: Input, a: nat, b: nat, c: nat)
    requires a <= b <= c <= |s|
    ensures s[a..c] == s[a..b] + s[b..c]
  {
  }

  lemma SlicesSpell(s: Input, p0: nat, p1: nat, p2: nat, p3: nat, p4: nat, p5: nat, p6: nat, p7: nat)
    requires p0 <= p1 <= p2 <= p3 <= p4 <= p5 <= p6 <= p7 <= |s|
    ensures Spelled(Sliced(s, p0, p1, p2, p3, p4, p5, p6, p7)) == s[p0..p7]
  {
    Cut(s, p5, p6, p7);
    Cut(s, p4, p5, p7);
    Cut(s, p3, p4, p7);
    Cut(s, p2, p3, p7);
    Cut(s, p1, p2, p7);
    Cut(s, p0, p1, p7);
  }

  /** What is taken for a number is always a numeral that could not go on. */
  lemma NumeralFound(s: Input, pos: nat) returns (n: Numeral)
    requires pos < |s|
    ensures WellFormed(n) && Spelled(n) == s[pos..NumberEnd(s, pos)] && Ended(n, s[NumberEnd(s, pos)])
  {
    hide Digits, AllDigits, Spelled, Ended, WellFormed;
    var a := Optional(s, pos, IsSign(s[pos]));
    var b := Digits(s, a);
    var c := Optional(s, b, s[b] == DOT);
    var d := Digits(s, c);
    DigitsFirst(s, a);
    DigitsFirst(s, c);
    var f, g := FoundExponent(s, d);
    if b == c { DigitsStop(s, b); }
    var end := NumberEnd(s, pos);
    n := Sliced(s, pos, a, b, c, d, f, g, end);
    SlicesSpell(s, pos, a, b, c, d, f, g, end);
    SlicesFit(s, pos, a, b, c, d, f, g, end);
  }

  lemma SlicesFit(s: Input, p0: nat, p1: nat, p2: nat, p3: nat, p4: nat, p5: nat, p6: nat, p7: nat)
    requires p0 <= p1 <= p2 <= p3 <= p4 <= p5 <= p6 <= p7 < |s|
    requires SignOrNone(s[p0..p1]) && AllDigits(s[p1..p2]) && AllDigits(s[p3..p4]) && SignOrNone(s[p5..p6]) &&
             AllDigits(s[p6..p7])
    requires p2 == p3 == p4 || (p3 == p2 + 1 && s[p2] == 46)
    requires p4 == p5 == p6 == p7 || (p5 == p4 + 1 && (s[p4] == 101 || s[p4] == 69))
    requires !(48 <= s[p7] <= 57) && (p4 == p5 ==> s[p7] != 101 && s[p7] != 69)
    requires p2 == p3 && p4 == p5 ==> s[p7] != 46
    requires p0 == p7 || (p4 != p5 && p5 == p7) ==> s[p7] != 43 && s[p7] != 45
    ensures var n := Sliced(s, p0, p1, p2, p3, p4, p5, p6, p7); WellFormed(n) && Ended(n, s[p7])
  {
    hide AllDigits, Spelled;
    SlicesSpell(s, p0, p1, p2, p3, p4, p5, p6, p7);
    assert p3 == p2 + 1 ==> s[p2..p3] == [s[p2]];
    assert p5 == p4 + 1 ==> s[p4..p5] == [s[p4]];
  }

  /** A row of digits is a number. */
  lemma DigitsAreNumber(t: seq<Byte>)
    requires AllDigits(t) && t != []
    ensures IsNumber(t)
  {
    var n := Numeral([], t, [], [], [], [], []);
    assert Spelled(n) == t;
    NumeralRead(t + [0], 0, n);
  }
}
