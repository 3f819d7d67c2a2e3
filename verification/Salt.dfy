/** cocoons/web/bcrypt/crypt_blowfish.c: the base-64 codec of bcrypt, and the settings built and read with it. */
module Salt {
  import opened Bytes

  type Octet = bv8

  /** A value of the alphabet. */
  type Sextet = k: bv8 | k < 64

  // ----- the two tables -----

  /** BF_itoa64: ./ then capitals, small letters, digits. */
  function Itoa(k: Sextet): (c: Octet) {
    if k < 2 then k + 46 else if k < 28 then k - 2 + 65 else if k < 54 then k - 28 + 97 else k - 54 + 48
  }

  /** BF_atoi64 behind its range check; None for characters outside the alphabet. */
  function Atoi(c: Octet): (k: Option<Sextet>) {
    if 46 <= c <= 47 then Some(c - 46)
    else if 48 <= c <= 57 then Some(c - 48 + 54)
    else if 65 <= c <= 90 then Some(c - 65 + 2)
    else if 97 <= c <= 122 then Some(c - 97 + 28)
    else None
  }

  lemma AtoiItoa(k: Sextet)
    ensures Atoi(Itoa(k)) == Some(k)
  {
  }

  lemma ItoaAtoi(c: Octet)
    requires Atoi(c).Some?
    ensures Itoa(Atoi(c).value) == c
  {
  }

  // ----- three bytes and four sextets -----

  function G1(x: Octet): (k: Sextet) {
    x >> 2
  }

  function G2(x: Octet, y: Octet): (k: Sextet) {
    ((x & 0x03) << 4) | (y >> 4)
  }

  function G3(y: Octet, z: Octet): (k: Sextet) {
    ((y & 0x0F) << 2) | (z >> 6)
  }

  function G4(z: Octet): (k: Sextet) {
    z & 0x3F
  }

  function First(c1: Sextet, c2: Sextet): (b: Octet) {
    (c1 << 2) | ((c2 & 0x30) >> 4)
  }

  function Second(c2: Sextet, c3: Sextet): (b: Octet) {
    ((c2 & 0x0F) << 4) | ((c3 & 0x3C) >> 2)
  }

  function Third(c3: Sextet, c4: Sextet): (b: Octet) {
    ((c3 & 0x03) << 6) | c4
  }

  /** The bits of a text's last sextet that belong to one of its n bytes. */
  function Trimmed(c: Sextet, n: nat): (k: Sextet) {
    if n % 3 == 1 then c & 0x30 else if n % 3 == 2 then c & 0x3C else c
  }

  lemma BytesBack(x: Octet, y: Octet, z: Octet)
    ensures First(G1(x), G2(x, y)) == x && Second(G2(x, y), G3(y, z)) == y && Third(G3(y, z), G4(z)) == z
  {
  }

  lemma SextetsBack(c1: Sextet, c2: Sextet, c3: Sextet, c4: Sextet)
    ensures G1(First(c1, c2)) == c1 && G2(First(c1, c2), Second(c2, c3)) == c2
    ensures G3(Second(c2, c3), Third(c3, c4)) == c3 && G4(Third(c3, c4)) == c4
  {
  }

  lemma LastSextetBack(c1: Sextet, c2: Sextet, c3: Sextet)
    ensures G2(First(c1, c2), 0) == Trimmed(c2, 1) && G3(Second(c2, c3), 0) == Trimmed(c3, 2)
  {
  }

  // ----- the codec -----

  function One(k: Sextet): (t: seq<Octet>)
    ensures |t| == 1
  {
    [Itoa(k)]
  }

  /** Up to three bytes at the head of x. */
  function Group(x: seq<Octet>): (t: seq<Octet>)
    requires x != []
    ensures |t| == if |x| < 3 then |x| + 1 else 4
  {
    if |x| == 1 then One(G1(x[0])) + One(G2(x[0], 0))
    else if |x| == 2 then One(G1(x[0])) + One(G2(x[0], x[1])) + One(G3(x[1], 0))
    else One(G1(x[0])) + One(G2(x[0], x[1])) + One(G3(x[1], x[2])) + One(G4(x[2]))
  }

  function Encoded(x: seq<Octet>): (t: seq<Octet>)
    requires x != []
  {
    if |x| <= 3 then Group(x) else Group(x) + Encoded(x[3..])
  }

  /** A C string reads as zero behind its end. */
  function CharAt(s: seq<Octet>, i: nat): (c: Octet) {
    if i < |s| then s[i] else 0
  }

  /** n bytes from the text at s; None for a character outside the alphabet. */
  function Decoded(s: seq<Octet>, n: nat): (r: Option<seq<Octet>>)
    requires n > 0
    ensures r.Some? ==> |r.value| == n
  {
    var a1, a2, a3, a4 := Atoi(CharAt(s, 0)), Atoi(CharAt(s, 1)), Atoi(CharAt(s, 2)), Atoi(CharAt(s, 3));
    if a1.None? || a2.None? then None
    else if n == 1 then Some([First(a1.value, a2.value)])
    else if a3.None? then None
    else if n == 2 then Some([First(a1.value, a2.value), Second(a2.value, a3.value)])
    else if a4.None? then None
    else
      var three := [First(a1.value, a2.value), Second(a2.value, a3.value), Third(a3.value, a4.value)];
      if n == 3 then Some(three)
      else
        match Decoded(if |s| >= 4 then s[4..] else [], n - 3)
        case None => None
        case Some(rest) => Some(three + rest)
  }

  function EncodedLength(n: nat): (k: nat) {
    (8 * n + 5) / 6
  }

  lemma {:induction false} EncodedSize(x: seq<Octet>)
    requires x != []
    ensures |Encoded(x)| == EncodedLength(|x|)
  {
    if |x| > 3 { EncodedSize(x[3..]); }
  }

  /** A text that starts with the sextets of three bytes. */
  lemma DecodeQuartet(s: seq<Octet>, n: nat, x: Octet, y: Octet, z: Octet)
    requires n >= 3 && |s| >= 4 && s[..4] == Group([x, y, z])
    ensures n == 3 ==> Decoded(s, n) == Some([x, y, z])
    ensures n > 3 ==>
              Decoded(s, n) == match Decoded(s[4..], n - 3) case None => None case Some(r) => Some([x, y, z] + r)
  {
    hide Itoa, Atoi, First, Second, Third, G1, G2, G3, G4;
    var q := Group([x, y, z]);
    assert s[0] == q[0] && s[1] == q[1] && s[2] == q[2] && s[3] == q[3];
    BytesBack(x, y, z);
    AtoiItoa(G1(x));
    AtoiItoa(G2(x, y));
    AtoiItoa(G3(y, z));
    AtoiItoa(G4(z));
  }

  lemma GroupOfThree(x: seq<Octet>)
    requires |x| >= 3
    ensures Group(x) == Group([x[0], x[1], x[2]])
  {
    hide One, G1, G2, G3, G4;
  }

  lemma DecodeShort(x: seq<Octet>, tail: seq<Octet>)
    requires 1 <= |x| <= 2
    ensures Decoded(Encoded(x) + tail, |x|) == Some(x)
  {
    hide Itoa, Atoi, First, Second, Third, G1, G2, G3, G4;
    var s := Encoded(x) + tail;
    var y := if |x| > 1 then x[1] else 0;
    assert s[0] == Itoa(G1(x[0])) && s[1] == Itoa(G2(x[0], y));
    BytesBack(x[0], y, 0);
    AtoiItoa(G1(x[0]));
    AtoiItoa(G2(x[0], y));
    if |x| == 1 {
      assert x == [x[0]];
    } else {
      assert s[2] == Itoa(G3(y, 0));
      AtoiItoa(G3(y, 0));
      assert x == [x[0], x[1]];
    }
  }

  /** Decoding what was encoded, with anything behind it, gives the bytes back, for every length. */
  lemma {:induction false} DecodeEncode(x: seq<Octet>, tail: seq<Octet>)
    requires x != []
    ensures Decoded(Encoded(x) + tail, |x|) == Some(x)
    decreases |x|
  {
    hide Decoded, Group;
    if |x| <= 2 {
      DecodeShort(x, tail);
    } else {
      var s := Encoded(x) + tail;
      GroupOfThree(x);
      assert s[..4] == Group(x);
      DecodeQuartet(s, |x|, x[0], x[1], x[2]);
      if |x| == 3 {
        assert x == [x[0], x[1], x[2]];
      } else {
        DecodeEncode(x[3..], tail);
        assert s[4..] == Encoded(x[3..]) + tail;
        assert x == [x[0], x[1], x[2]] + x[3..];
      }
    }
  }

  /** A text with the unused bits of its last character cleared. */
  function Canonical(s: seq<Octet>, n: nat): (t: seq<Octet>)
    requires 0 < EncodedLength(n) <= |s| && Atoi(s[EncodedLength(n) - 1]).Some?
  {
    var k := EncodedLength(n) - 1;
    s[..k] + [Itoa(Trimmed(Atoi(s[k]).value, n))]
  }

  lemma NulInvalid()
    ensures Atoi(0).None?
  {
  }

  lemma NoTrim(c: Sextet, n: nat)
    ensures n % 3 == 0 ==> Trimmed(c, n) == c
    ensures n >= 3 ==> Trimmed(c, n) == Trimmed(c, n - 3)
  {
  }

  /** Encoding what was decoded gives the text back, but for the unused bits of its last character. */
  lemma {:induction false} EncodeDecode(s: seq<Octet>, n: nat)
    requires n > 0 && Decoded(s, n).Some?
    ensures EncodedLength(n) <= |s| && Atoi(s[EncodedLength(n) - 1]).Some?
    ensures Encoded(Decoded(s, n).value) == Canonical(s, n)
    decreases n
  {
    hide Itoa, Atoi, First, Second, Third, G1, G2, G3, G4, Trimmed;
    NulInvalid();
    ItoaAtoi(s[0]);
    var c1, c2 := Atoi(s[0]).value, Atoi(s[1]).value;
    if n == 1 {
      LastSextetBack(c1, c2, 0);
      SextetsBack(c1, c2, 0, 0);
    } else {
      ItoaAtoi(s[1]);
      var c3 := Atoi(s[2]).value;
      if n == 2 {
        LastSextetBack(c1, c2, c3);
        SextetsBack(c1, c2, c3, 0);
      } else {
        ItoaAtoi(s[2]);
        ItoaAtoi(s[3]);
        var c4 := Atoi(s[3]).value;
        SextetsBack(c1, c2, c3, c4);
        assert s[..4] == [s[0], s[1], s[2], s[3]];
        NoTrim(c4, n);
        if n > 3 {
          EncodeDecodeMore(s, n, First(c1, c2), Second(c2, c3), Third(c3, c4));
        }
      }
    }
  }

  lemma {:induction false} EncodeDecodeMore(s: seq<Octet>, n: nat, x: Octet, y: Octet, z: Octet)
    requires n > 3 && |s| >= 4 && Decoded(s[4..], n - 3).Some? && Group([x, y, z]) == s[..4]
    ensures EncodedLength(n) <= |s| && Atoi(s[EncodedLength(n) - 1]).Some?
    ensures Encoded([x, y, z] + Decoded(s[4..], n - 3).value) == Canonical(s, n)
    decreases n, 0
  {
    hide Itoa, Atoi, Group, Trimmed, Decoded;
    EncodeDecode(s[4..], n - 3);
    var rest := Decoded(s[4..], n - 3).value;
    assert ([x, y, z] + rest)[3..] == rest;
    GroupOfThree([x, y, z] + rest);
    var k := EncodedLength(n) - 1;
    assert EncodedLength(n - 3) + 4 == EncodedLength(n);
    assert s[4..][k - 4] == s[k] && s[..4] + s[4..][..k - 4] == s[..k];
    NoTrim(Atoi(s[k]).value, n);
  }

  // ----- what the characters stand for -----

  /** The alphabet: point and slash, capital letters, small letters and digits, each in their order. */
  lemma Alphabet(k: Sextet)
    ensures Itoa(0) == '.' as Octet && Itoa(1) == '/' as Octet && Itoa(2) == 'A' as Octet && Itoa(27) == 'Z' as Octet
    ensures Itoa(28) == 'a' as Octet && Itoa(53) == 'z' as Octet && Itoa(54) == '0' as Octet && Itoa(63) == '9' as Octet
    ensures k < 63 && k != 1 && k != 27 && k != 53 ==> Itoa(k + 1) == Itoa(k) + 1
  {
  }

  /** Three bytes and their four sextets are the same twenty-four bits in the same order. */
  lemma SameBits(x: Octet, y: Octet, z: Octet)
    ensures ((x as bv24) << 16) | ((y as bv24) << 8) | (z as bv24) ==
            ((G1(x) as bv24) << 18) | ((G2(x, y) as bv24) << 12) | ((G3(y, z) as bv24) << 6) | (G4(z) as bv24)
  {
  }

  lemma EncodedSplits(x: seq<Octet>)
    requires |x| >= 3
    ensures |Encoded(x)| >= 4 && Encoded(x)[..4] == Group([x[0], x[1], x[2]])
    ensures |x| > 3 ==> Encoded(x)[4..] == Encoded(x[3..])
  {
    GroupOfThree(x);
    hide Group;
  }

  lemma FullGroup(a: Octet, b: Octet, c: Octet)
    ensures Group([a, b, c]) == [Itoa(G1(a)), Itoa(G2(a, b)), Itoa(G3(b, c)), Itoa(G4(c))]
  {
    hide Itoa, G1, G2, G3, G4;
  }

  /** The i-th three bytes are written as the i-th four characters. */
  lemma {:induction false} EncodedAt(x: seq<Octet>, i: nat)
    requires 3 * i + 3 <= |x|
    ensures 4 * i + 4 <= |Encoded(x)|
    ensures var a, b, c := x[3 * i], x[3 * i + 1], x[3 * i + 2];
            Encoded(x)[4 * i..4 * i + 4] == [Itoa(G1(a)), Itoa(G2(a, b)), Itoa(G3(b, c)), Itoa(G4(c))]
    decreases i
  {
    hide Itoa, G1, G2, G3, G4, Group, Encoded;
    EncodedSplits(x);
    if i == 0 {
      FullGroup(x[0], x[1], x[2]);
    } else {
      EncodedAt(x[3..], i - 1);
      var t := Encoded(x[3..]);
      assert Encoded(x)[4 * i..4 * i + 4] == t[4 * i - 4..4 * i];
    }
  }

  // ----- pointer walks -----

  /** The bytes of dst from at on are t; everything else is as it was. */
  ghost predicate Written(dst: array<Octet>, before: seq<Octet>, at: nat, t: seq<Octet>)
    reads dst
  {
    at + |t| <= dst.Length == |before| && dst[..] == before[..at] + t + before[at + |t|..]
  }

  /** *dptr++ = BF_itoa64[k] */
  method Put(dst: array<Octet>, at: nat, k: Sextet, ghost before: seq<Octet>, ghost from: nat, ghost t: seq<Octet>)
    requires at < dst.Length && Written(dst, before, from, t) && at == from + |t|
    modifies dst
    ensures Written(dst, before, from, t + One(k))
  {
    dst[at] := Itoa(k);
  }

  /** One round of the loop of BF_encode. */
  method EncodeGroup(dst: array<Octet>, dptr: nat, src: seq<Octet>, sptr: nat, ghost was: seq<Octet>, ghost at: nat,
                     ghost done: seq<Octet>)
    requires sptr < |src| && dptr == at + |done| && dptr + |Group(src[sptr..])| <= dst.Length &&
             Written(dst, was, at, done)
    modifies dst
    ensures Written(dst, was, at, done + Group(src[sptr..]))
  {
    hide Itoa, G1, G2, G3, G4, One, Written;
    var c1 := src[sptr];
    Put(dst, dptr, G1(c1), was, at, done);
    ghost var t := done + One(G1(c1));
    if sptr + 1 >= |src| {
      Put(dst, dptr + 1, G2(c1, 0), was, at, t);
      assert t + One(G2(c1, 0)) == done + (One(G1(c1)) + One(G2(c1, 0)));
      return;
    }
    var c2 := src[sptr + 1];
    Put(dst, dptr + 1, G2(c1, c2), was, at, t);
    t := t + One(G2(c1, c2));
    if sptr + 2 >= |src| {
      Put(dst, dptr + 2, G3(c2, 0), was, at, t);
      assert t + One(G3(c2, 0)) == done + (One(G1(c1)) + One(G2(c1, c2)) + One(G3(c2, 0)));
      return;
    }
    var c3 := src[sptr + 2];
    Put(dst, dptr + 2, G3(c2, c3), was, at, t);
    t := t + One(G3(c2, c3));
    Put(dst, dptr + 3, G4(c3), was, at, t);
    assert t + One(G4(c3)) == done + (One(G1(c1)) + One(G2(c1, c2)) + One(G3(c2, c3)) + One(G4(c3)));
  }

  /** BF_encode, from dst[at] on. */
  method Encode(dst: array<Octet>, at: nat, src: seq<Octet>)
    requires src != [] && at + EncodedLength(|src|) <= dst.Length
    modifies dst
    ensures Written(dst, old(dst[..]), at, Encoded(src))
  {
    hide Group, Written;
    var sptr, dptr := 0, at;
    ghost var was, done := dst[..], [];
    EncodedSize(src);
    assert src[0..] == src && [] + Encoded(src) == Encoded(src);
    WrittenNothing(dst, at);
    while true
      invariant 0 <= sptr < |src| && dptr == at + |done| && Written(dst, was, at, done)
      invariant done + Encoded(src[sptr..]) == Encoded(src)
      decreases |src| - sptr
    {
      ghost var rest := src[sptr..];
      EncodedSize(rest);
      EncodeGroup(dst, dptr, src, sptr, was, at, done);
      if sptr + 3 >= |src| {
        return;
      }
      assert rest[3..] == src[sptr + 3..];
      assert done + (Group(rest) + Encoded(rest[3..])) == done + Group(rest) + Encoded(rest[3..]);
      done := done + Group(rest);
      sptr, dptr := sptr + 3, dptr + 4;
    }
  }

  lemma WrittenNothing(dst: array<Octet>, at: nat)
    requires at <= dst.Length
    ensures Written(dst, dst[..], at, [])
  {
  }

  function Rest(s: seq<Octet>, i: nat): (t: seq<Octet>) {
    if i <= |s| then s[i..] else []
  }

  function Prefixed(done: seq<Octet>, r: Option<seq<Octet>>): (p: Option<seq<Octet>>) {
    match r
    case None => None
    case Some(t) => Some(done + t)
  }

  lemma DecodedStep(s: seq<Octet>, i: nat, n: nat)
    requires n > 0
    ensures var a1, a2, a3, a4 := Atoi(CharAt(s, i)), Atoi(CharAt(s, i + 1)), Atoi(CharAt(s, i + 2)),
            Atoi(CharAt(s, i + 3));
            Decoded(Rest(s, i), n) ==
            if a1.None? || a2.None? then None
            else if n == 1 then Some([First(a1.value, a2.value)])
            else if a3.None? then None
            else if n == 2 then Some([First(a1.value, a2.value), Second(a2.value, a3.value)])
            else if a4.None? then None
            else
              var three := [First(a1.value, a2.value), Second(a2.value, a3.value), Third(a3.value, a4.value)];
              if n == 3 then Some(three) else Prefixed(three, Decoded(Rest(s, i + 4), n - 3))
  {
    hide Atoi, First, Second, Third;
    var t := Rest(s, i);
    assert forall k: nat | k < 4 :: CharAt(t, k) == CharAt(s, i + k);
    assert CharAt(t, 0) == CharAt(s, i) && CharAt(t, 1) == CharAt(s, i + 1) && CharAt(t, 2) == CharAt(s, i + 2);
    assert (if |t| >= 4 then t[4..] else []) == Rest(s, i + 4) || |t| < 4;
    if |t| < 4 { NulInvalid(); }
  }

  /** BF_decode: stops at the first character outside the alphabet. */
  method Decode(dst: array<Octet>, src: seq<Octet>, size: nat) returns (ok: bool)
    requires 0 < size <= dst.Length
    modifies dst
    ensures ok == Decoded(src, size).Some?
    ensures ok ==> dst[..size] == Decoded(src, size).value
  {
    hide Atoi, First, Second, Third, Decoded;
    var sptr, dptr := 0, 0;
    assert Rest(src, 0) == src;
    ghost var whole := Decoded(src, size);
    PrefixedNone(whole);
    assert dst[..0] == [];
    while true
      invariant 0 <= dptr < size && sptr >= 0 && whole == Prefixed(dst[..dptr], Decoded(Rest(src, sptr), size - dptr))
      decreases size - dptr
    {
      DecodedStep(src, sptr, size - dptr);
      ghost var done := dst[..dptr];
      var c1, c2 := Atoi(CharAt(src, sptr)), Atoi(CharAt(src, sptr + 1));
      if c1.None? || c2.None? {
        return false;
      }
      dst[dptr] := First(c1.value, c2.value);
      if dptr + 1 >= size {
        assert dst[..size] == done + [First(c1.value, c2.value)];
        return true;
      }
      var c3 := Atoi(CharAt(src, sptr + 2));
      if c3.None? {
        return false;
      }
      dst[dptr + 1] := Second(c2.value, c3.value);
      if dptr + 2 >= size {
        assert dst[..size] == done + [First(c1.value, c2.value), Second(c2.value, c3.value)];
        return true;
      }
      var c4 := Atoi(CharAt(src, sptr + 3));
      if c4.None? {
        return false;
      }
      dst[dptr + 2] := Third(c3.value, c4.value);
      ghost var three := [First(c1.value, c2.value), Second(c2.value, c3.value), Third(c3.value, c4.value)];
      assert dst[..dptr + 3] == done + three;
      sptr, dptr := sptr + 4, dptr + 3;
      if dptr >= size {
        return true;
      }
      PrefixedMore(done, three, Decoded(Rest(src, sptr), size - dptr));
    }
  }

  lemma PrefixedNone(r: Option<seq<Octet>>)
    ensures Prefixed([], r) == r
  {
    if r.Some? { assert [] + r.value == r.value; }
  }

  lemma PrefixedMore(a: seq<Octet>, b: seq<Octet>, r: Option<seq<Octet>>)
    ensures Prefixed(a, Prefixed(b, r)) == Prefixed(a + b, r)
  {
    if r.Some? { assert a + (b + r.value) == a + b + r.value; }
  }

  // ----- settings -----

  const DOLLAR: Octet := 36
  const DIGIT: Octet := 48
  const TWO: Octet := 50

  const SALT_BYTES := 16
  const SALT_CHARS := 22

  /** flags_by_subtype, for the letter behind "$2"; 0 rejects it. */
  function Flags(c: Octet): (f: nat) {
    if c == 97 then 2 else if c == 120 then 1 else if c == 121 then 4 else 0
  }

  /** The letters in use: x asks for the emulation of the sign extension bug, a for the safety measure. */
  lemma FlagsMean(c: Octet)
    ensures Flags(c) != 0 <==> c == 'a' as Octet || c == 'x' as Octet || c == 'y' as Octet
    ensures (Flags(c) % 2 == 1 <==> c == 'x' as Octet) && (Flags(c) / 2 % 2 == 1 <==> c == 'a' as Octet)
  {
  }

  function Power(n: nat): (p: nat) {
    if n == 0 then 1 else 2 * Power(n - 1)
  }

  datatype Setting = Setting(flags: nat, count: nat, salt: seq<Octet>)

  /** The cost in the two digits of a setting; none above 31. */
  function Cost(s: seq<Octet>): (r: Option<nat>)
    ensures r.Some? ==> r.value <= 31
  {
    var a, b := CharAt(s, 4), CharAt(s, 5);
    if a < 48 || a > 51 || b < 48 || b > 57 || (a == 51 && b > 49) then None
    else
      CostBound(a, b);
      Some(Digit(a) * 10 + Digit(b))
  }

  function Digit(c: Octet): (d: nat) {
    if c == 49 then 1 else if c == 50 then 2 else if c == 51 then 3 else if c == 52 then 4 else if c == 53 then 5
    else if c == 54 then 6 else if c == 55 then 7 else if c == 56 then 8 else if c == 57 then 9 else 0
  }

  lemma CostBound(a: Octet, b: Octet)
    requires a <= 51 && (a == 51 ==> b <= 49)
    ensures Digit(a) * 10 + Digit(b) <= 31
  {
  }

  /** The checks at the head of BF_crypt, and what it takes from the setting. */
  function Checked(s: seq<Octet>, min: nat): (r: Option<Setting>) {
    if CharAt(s, 0) != DOLLAR || CharAt(s, 1) != TWO || Flags(CharAt(s, 2)) == 0 || CharAt(s, 3) != DOLLAR ||
       Cost(s).None? || CharAt(s, 6) != DOLLAR || Power(Cost(s).value) < min then None
    else
      match Decoded(Rest(s, 7), SALT_BYTES)
      case None => None
      case Some(salt) => Some(Setting(Flags(CharAt(s, 2)), Power(Cost(s).value), salt))
  }

  function DigitChar(d: nat): (c: Octet)
    requires d < 10
  {
    DIGIT + d as Octet
  }

  lemma DigitBack(d: nat)
    requires d < 10
    ensures Digit(DigitChar(d)) == d && 48 <= DigitChar(d) <= 57 && (d <= 3 ==> DigitChar(d) <= 51)
    ensures DigitChar(d) == 51 ==> d == 3
    ensures d <= 1 ==> DigitChar(d) <= 49
  {
    if d == 0 {} else if d == 1 {} else if d == 2 {} else if d == 3 {} else if d == 4 {} else if d == 5 {}
    else if d == 6 {} else if d == 7 {} else if d == 8 {} else { assert d == 9; }
  }

  /** "$2", the letter, "$", two digits, "$", and the encoded salt. */
  function Generated(letter: Octet, cost: nat, salt: seq<Octet>): (t: seq<Octet>)
    requires cost <= 31 && |salt| == SALT_BYTES
  {
    [DOLLAR, TWO, letter, DOLLAR, DigitChar(cost / 10), DigitChar(cost % 10), DOLLAR] + Encoded(salt)
  }

  /** The cost stands in a setting as two decimal digits. */
  lemma CostWritten(letter: Octet, cost: nat, salt: seq<Octet>)
    requires cost <= 31 && |salt| == SALT_BYTES
    ensures var t := Generated(letter, cost, salt);
            t[..4] == ['$' as Octet, '2' as Octet, letter, '$' as Octet] && t[6] == '$' as Octet &&
            10 * (t[4] as nat - 48) + (t[5] as nat - 48) == cost && 48 <= t[4] <= 57 && 48 <= t[5] <= 57
  {
    hide Encoded, DigitChar;
    DigitIs(cost / 10);
    DigitIs(cost % 10);
  }

  lemma DigitIs(d: nat)
    requires d < 10
    ensures DigitChar(d) as nat == 48 + d && 48 <= DigitChar(d) <= 57
  {
    if d == 0 {} else if d == 1 {} else if d == 2 {} else if d == 3 {} else if d == 4 {} else if d == 5 {}
    else if d == 6 {} else if d == 7 {} else if d == 8 {} else { assert d == 9; }
  }

  /** Every generated setting passes the checks and yields back its cost and its salt. */
  lemma GeneratedPasses(letter: Octet, cost: nat, salt: seq<Octet>, min: nat)
    requires (letter == 97 || letter == 121) && cost <= 31 && |salt| == SALT_BYTES && min <= Power(cost)
    ensures Checked(Generated(letter, cost, salt), min) == Some(Setting(Flags(letter), Power(cost), salt))
  {
    hide Decoded, Encoded, Power, DigitChar, Digit;
    var s := Generated(letter, cost, salt);
    DigitBack(cost / 10);
    DigitBack(cost % 10);
    assert Rest(s, 7) == Encoded(salt) + [];
    DecodeEncode(salt, []);
    assert CharAt(s, 4) == DigitChar(cost / 10) && CharAt(s, 5) == DigitChar(cost % 10);
    assert Cost(s) == Some(cost);
  }

  lemma {:induction false} PowerGrows(m: nat, n: nat)
    requires m <= n
    ensures Power(m) <= Power(n)
    decreases n
  {
    if m < n { PowerGrows(m, n - 1); }
  }

  method WriteSetting(output: array<Octet>, letter: Octet, cost: nat, salt: seq<Octet>)
    requires output.Length >= 7 + SALT_CHARS + 1 && cost <= 31 && |salt| == SALT_BYTES
    modifies output
    ensures output[..7 + SALT_CHARS] == Generated(letter, cost, salt) && output[7 + SALT_CHARS] == 0
  {
    hide Encoded, DigitChar;
    output[0], output[1], output[2], output[3] := DOLLAR, TWO, letter, DOLLAR;
    output[4], output[5], output[6] := DigitChar(cost / 10), DigitChar(cost % 10), DOLLAR;
    ghost var head := output[..7];
    EncodedSize(salt);
    Encode(output, 7, salt);
    output[7 + SALT_CHARS] := 0;
    assert output[..7] == head;
    assert output[..7 + SALT_CHARS] == output[..7] + output[7..7 + SALT_CHARS];
  }

  /** _crypt_gensalt_blowfish_rn: a cost of 0 stands for 5; costs below 4 or above 31 are refused. */
  method GenSalt(prefix: seq<Octet>, count: nat, input: seq<Octet>, output: array<Octet>) returns (ok: bool)
    modifies output
    ensures ok == (|input| >= SALT_BYTES && output.Length >= 7 + SALT_CHARS + 1 && (count == 0 || 4 <= count <= 31) &&
                   CharAt(prefix, 0) == DOLLAR && CharAt(prefix, 1) == TWO && CharAt(prefix, 2) in {97, 121})
    ensures ok ==>
              var cost := if count == 0 then 5 else count;
              output[..7 + SALT_CHARS] == Generated(CharAt(prefix, 2), cost, input[..SALT_BYTES]) &&
              output[7 + SALT_CHARS] == 0
    ensures !ok && output.Length > 0 ==> output[0] == 0
  {
    hide Generated;
    if |input| < SALT_BYTES || output.Length < 7 + SALT_CHARS + 1 || (count != 0 && (count < 4 || count > 31)) ||
       CharAt(prefix, 0) != DOLLAR || CharAt(prefix, 1) != TWO ||
           (CharAt(prefix, 2) != 97 && CharAt(prefix, 2) != 121) {
      if output.Length > 0 {
        output[0] := 0;
      }
      return false;
    }
    var cost := if count == 0 then 5 else count;
    WriteSetting(output, CharAt(prefix, 2), cost, input[..SALT_BYTES]);
    return true;
  }

  /** What gensalt makes is accepted by BF_crypt, which asks for a count of at least 16. */
  method SaltAccepted(prefix: seq<Octet>, count: nat, input: seq<Octet>) returns (output: array<Octet>, ok: bool)
    ensures output.Length == 7 + SALT_CHARS + 1
    ensures ok ==> |input| >= SALT_BYTES && Checked(output[..], 16) ==
                     Some(Setting(Flags(CharAt(prefix, 2)), Power(if count == 0 then 5 else count),
                                  input[..SALT_BYTES]))
  {
    hide Power, Checked, Generated;
    output := new Octet[7 + SALT_CHARS + 1];
    ok := GenSalt(prefix, count, input, output);
    if ok {
      var cost := if count == 0 then 5 else count;
      PowerGrows(4, cost);
      assert Power(4) == 16 by { SixteenIs(); }
      GeneratedPasses(CharAt(prefix, 2), cost, input[..SALT_BYTES], 16);
      Terminated(output[..7 + SALT_CHARS], 16);
      assert output[..] == output[..7 + SALT_CHARS] + [0];
    }
  }

  lemma SixteenIs()
    ensures Power(4) == 16
  {
  }

  /** The terminating zero makes no difference. */
  lemma Terminated(s: seq<Octet>, min: nat)
    requires Checked(s, min).Some?
    ensures Checked(s + [0], min) == Checked(s, min)
  {
    hide Atoi, First, Second, Third, Decoded, Power;
    DecodedTerminated(Rest(s, 7), SALT_BYTES);
    assert |s| >= 7 by { NulInvalid(); }
    assert Rest(s + [0], 7) == Rest(s, 7) + [0];
  }

  lemma {:induction false} DecodedTerminated(s: seq<Octet>, n: nat)
    requires n > 0
    ensures Decoded(s + [0], n) == Decoded(s, n)
    decreases n
  {
    hide Atoi, First, Second, Third;
    NulInvalid();
    if n > 3 {
      if |s| >= 4 {
        DecodedTerminated(s[4..], n - 3);
        assert (s + [0])[4..] == s[4..] + [0];
      }
    }
  }

  /** The salt text BF_crypt writes to its output, from a setting it accepted. */
  function SaltText(s: seq<Octet>): (t: seq<Octet>)
    requires |s| >= 7 + SALT_CHARS && Atoi(s[7 + SALT_CHARS - 1]).Some?
  {
    s[7..7 + SALT_CHARS - 1] + [Itoa(Masked(Atoi(s[7 + SALT_CHARS - 1]).value))]
  }

  function Masked(c: Sextet): (k: Sextet) {
    c & 0x30
  }

  /** That text is the encoding of the salt it decoded, however the caller's unused bits were set. */
  lemma SaltTextIsCanonical(s: seq<Octet>, min: nat)
    requires Checked(s, min).Some?
    ensures |s| >= 7 + SALT_CHARS && Atoi(s[7 + SALT_CHARS - 1]).Some?
    ensures SaltText(s) == Encoded(Checked(s, min).value.salt)
  {
    hide Itoa, Atoi, Decoded, Encoded, Power, Trimmed, Masked;
    var t := Rest(s, 7);
    EncodeDecode(t, SALT_BYTES);
    assert EncodedLength(SALT_BYTES) == SALT_CHARS;
    assert t[..SALT_CHARS - 1] == s[7..7 + SALT_CHARS - 1];
    TrimIsMask(Atoi(s[7 + SALT_CHARS - 1]).value);
  }

  lemma TrimIsMask(c: Sextet)
    ensures Trimmed(c, SALT_BYTES) == Masked(c)
  {
  }
}
