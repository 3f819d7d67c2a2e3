/** cocoons/web/bcrypt/crypt_blowfish.c: the Blowfish network. */
module Feistel {
  type Word = bv32

  /** The four substitution boxes: 256 words each. */
  datatype Boxes = Boxes(s0: bv8 -> Word, s1: bv8 -> Word, s2: bv8 -> Word, s3: bv8 -> Word)

  const N := 16

  // ----- the two versions of a round -----

  /** 32-bit unsigned addition wraps around. */
  function Add(a: Word, b: Word): (r: Word) {
    a + b
  }

  function Xor(a: Word, b: Word): (r: Word) {
    a ^ b
  }

  function Mix(a: Word, b: Word, c: Word, d: Word): (r: Word) {
    Add(Xor(Add(b, a), c), d)
  }

  /** Boxes are indexed by words. */
  function Scaled(s: Boxes, x: Word): (r: Word) {
    var tmp1 := x & 0xFF;
    var tmp2 := (x >> 8) & 0xFF;
    var tmp3 := (x >> 16) & 0xFF;
    var tmp4 := x >> 24;
    Mix(s.s0(tmp4 as bv8), s.s1(tmp3 as bv8), s.s2(tmp2 as bv8), s.s3(tmp1 as bv8))
  }

  /** Reads a word at a byte offset. */
  function AtOffset(box: bv8 -> Word, offset: Word): (r: Word)
    requires offset <= 0x3FC && offset & 3 == 0
  {
    box((offset >> 2) as bv8)
  }

  /** Boxes are addressed by byte offsets. */
  function Unscaled(s: Boxes, x: Word): (r: Word) {
    var tmp1 := (x & 0xFF) << 2;
    var tmp2 := (x >> 6) & 0x3FC;
    var tmp3 := (x >> 14) & 0x3FC;
    var tmp4 := (x >> 22) & 0x3FC;
    Mix(AtOffset(s.s0, tmp4), AtOffset(s.s1, tmp3), AtOffset(s.s2, tmp2), AtOffset(s.s3, tmp1))
  }

  /** Both versions of BF_ROUND use the same four entries. */
  lemma RoundsAgree(s: Boxes, x: Word)
    ensures Scaled(s, x) == Unscaled(s, x)
  {
    assert ((x & 0xFF) << 2) >> 2 == x & 0xFF;
    assert ((x >> 6) & 0x3FC) >> 2 == (x >> 8) & 0xFF;
    assert ((x >> 14) & 0x3FC) >> 2 == (x >> 16) & 0xFF;
    assert ((x >> 22) & 0x3FC) >> 2 == x >> 24;
  }

  // ----- the round function, law by law -----

  /** The word with these bytes, the first one topmost. */
  function WordOf(b3: bv8, b2: bv8, b1: bv8, b0: bv8): (w: Word) {
    ((b3 as Word) << 24) | ((b2 as Word) << 16) | ((b1 as Word) << 8) | (b0 as Word)
  }

  /** The topmost byte selects from box 0, the next from box 1, and so on; no other entry matters. */
  lemma FourEntries(s: Boxes, t: Boxes, b3: bv8, b2: bv8, b1: bv8, b0: bv8)
    requires s.s0(b3) == t.s0(b3) && s.s1(b2) == t.s1(b2) && s.s2(b1) == t.s2(b1) && s.s3(b0) == t.s3(b0)
    ensures Scaled(s, WordOf(b3, b2, b1, b0)) == Scaled(t, WordOf(b3, b2, b1, b0))
  {
    hide Mix;
    BytesOf(b3, b2, b1, b0);
  }

  lemma BytesOf(b3: bv8, b2: bv8, b1: bv8, b0: bv8)
    ensures var x := WordOf(b3, b2, b1, b0);
            (x >> 24) as bv8 == b3 && ((x >> 16) & 0xFF) as bv8 == b2 && ((x >> 8) & 0xFF) as bv8 == b1 &&
            (x & 0xFF) as bv8 == b0
  {
  }

  /** Every word is made of four bytes. */
  lemma AllWords(x: Word) returns (b3: bv8, b2: bv8, b1: bv8, b0: bv8)
    ensures x == WordOf(b3, b2, b1, b0)
  {
    b3, b2, b1, b0 := (x >> 24) as bv8, ((x >> 16) & 0xFF) as bv8, ((x >> 8) & 0xFF) as bv8, (x & 0xFF) as bv8;
  }

  lemma ZeroIsNeutral(a: Word)
    ensures Add(a, 0) == a && Xor(a, 0) == a
  {
  }

  lemma SumsCommute(a: Word, b: Word)
    ensures Add(a, b) == Add(b, a)
  {
  }

  /** The entry of box 3 is added to what the round is without that box. */
  lemma LastBoxIsAdded(s: Boxes, b3: bv8, b2: bv8, b1: bv8, b0: bv8)
    ensures var x := WordOf(b3, b2, b1, b0); Scaled(s, x) == Add(Scaled(s.(s3 := _ => 0), x), s.s3(b0))
  {
    hide Add, Xor, WordOf;
    BytesOf(b3, b2, b1, b0);
    var r := Xor(Add(s.s1(b2), s.s0(b3)), s.s2(b1));
    ZeroIsNeutral(r);
  }

  /** In front of that, the entry of box 2 comes in by exclusive-or. */
  lemma ThirdBoxIsXored(s: Boxes, b3: bv8, b2: bv8, b1: bv8, b0: bv8)
    requires forall b :: s.s3(b) == 0
    ensures var x := WordOf(b3, b2, b1, b0); Scaled(s, x) == Xor(Scaled(s.(s2 := _ => 0), x), s.s2(b1))
  {
    hide Add, Xor, WordOf;
    BytesOf(b3, b2, b1, b0);
    var r := Add(s.s1(b2), s.s0(b3));
    ZeroIsNeutral(r);
    ZeroIsNeutral(Xor(r, s.s2(b1)));
  }

  /** Without boxes 2 and 3, a round is the wrapping sum of the entries at the two upper bytes. */
  lemma FirstBoxesAreSummed(s: Boxes, b3: bv8, b2: bv8, b1: bv8, b0: bv8)
    requires forall b :: s.s2(b) == 0 && s.s3(b) == 0
    ensures Scaled(s, WordOf(b3, b2, b1, b0)) == Add(s.s0(b3), s.s1(b2))
  {
    hide Add, Xor, WordOf;
    BytesOf(b3, b2, b1, b0);
    SumsCommute(s.s0(b3), s.s1(b2));
    ZeroIsNeutral(Add(s.s0(b3), s.s1(b2)));
  }

  // ----- the network -----

  /** What a round adds to the other half. */
  function Key(s: Boxes, x: Word, k: Word): (r: Word) {
    Xor(Scaled(s, x), k)
  }

  /** A half block pair after n rounds, newest half first. */
  function Rounds(s: Boxes, p: seq<Word>, n: nat, a: Word, b: Word): (r: (Word, Word))
    requires n < |p|
  {
    if n == 0 then (a, b)
    else
      var (x, y) := Rounds(s, p, n - 1, a, b);
      (Xor(y, Key(s, x, p[n])), x)
  }

  function Encrypted(s: Boxes, p: seq<Word>, l: Word, r: Word): (lr: (Word, Word))
    requires |p| >= 2
  {
    var (x, y) := Rounds(s, p, |p| - 2, Xor(l, p[0]), r);
    (Xor(y, p[|p| - 1]), x)
  }

  function Backwards(p: seq<Word>): (q: seq<Word>)
    ensures |q| == |p| && forall i :: 0 <= i < |p| ==> q[i] == p[|p| - 1 - i]
  {
    seq(|p|, i requires 0 <= i < |p| => p[|p| - 1 - i])
  }

  lemma XorTwice(a: Word, b: Word)
    ensures Xor(Xor(a, b), b) == a
  {
  }

  /** k rounds with the reversed subkeys take back the last k rounds. */
  lemma {:induction false} RoundsUndone(s: Boxes, p: seq<Word>, k: nat, a: Word, b: Word)
    requires k + 2 <= |p|
    ensures var n := |p| - 2;
            var (x, y) := Rounds(s, p, n, a, b);
            var (u, v) := Rounds(s, p, n - k, a, b);
            Rounds(s, Backwards(p), k, y, x) == (v, u)
    decreases k
  {
    hide Key, Xor;
    if k > 0 {
      var n := |p| - 2;
      RoundsUndone(s, p, k - 1, a, b);
      var (x, y) := Rounds(s, p, n, a, b);
      var (u, v) := Rounds(s, p, n - k, a, b);
      assert Rounds(s, p, n - k + 1, a, b) == (Xor(v, Key(s, u, p[n - k + 1])), u);
      assert Rounds(s, Backwards(p), k - 1, y, x) == (u, Xor(v, Key(s, u, p[n - k + 1])));
      assert Backwards(p)[k] == p[n + 1 - k];
      XorTwice(v, Key(s, u, p[n - k + 1]));
    }
  }

  /** Encrypting with the reversed subkeys is decrypting, for every key schedule and every block. */
  lemma EncryptUndone(s: Boxes, p: seq<Word>, l: Word, r: Word)
    requires |p| >= 2
    ensures var (x, y) := Encrypted(s, p, l, r);
            Encrypted(s, Backwards(p), x, y) == (l, r)
  {
    hide Key, Xor, Rounds;
    var n := |p| - 2;
    var a := Xor(l, p[0]);
    var (u, v) := Rounds(s, p, n, a, r);
    RoundsUndone(s, p, n, a, r);
    assert Rounds(s, p, 0, a, r) == (a, r) by { RoundsNone(s, p, a, r); }
    XorTwice(v, p[|p| - 1]);
    XorTwice(l, p[0]);
  }

  lemma RoundsNone(s: Boxes, p: seq<Word>, a: Word, b: Word)
    requires |p| > 0
    ensures Rounds(s, p, 0, a, b) == (a, b)
  {
  }

  lemma RoundsMore(s: Boxes, p: seq<Word>, n: nat, a: Word, b: Word)
    requires n + 1 < |p|
    ensures var (x, y) := Rounds(s, p, n, a, b); Rounds(s, p, n + 1, a, b) == (Xor(y, Key(s, x, p[n + 1])), x)
  {
    hide Key, Xor;
  }

  // ----- the network as its inventor describes it -----

  /** Every round mixes its subkey into the left half, the round value of that into the right half, and exchanges
      the halves. */
  function Exchanged(s: Boxes, p: seq<Word>, n: nat, l: Word, r: Word): (lr: (Word, Word))
    requires n <= |p|
  {
    if n == 0 then (l, r)
    else
      var (x, y) := Exchanged(s, p, n - 1, l, r);
      var left := Xor(x, p[n - 1]);
      (Xor(Scaled(s, left), y), left)
  }

  /** After the last round the exchange is taken back, and two more subkeys are mixed in. */
  function Blowfish(s: Boxes, p: seq<Word>, l: Word, r: Word): (lr: (Word, Word))
    requires |p| >= 2
  {
    var n := |p| - 2;
    var (y, x) := Exchanged(s, p, n, l, r);
    (Xor(x, p[n + 1]), Xor(y, p[n]))
  }

  lemma XorsRegroup(a: Word, b: Word, c: Word)
    ensures Xor(Xor(a, b), c) == Xor(b, Xor(a, c))
  {
  }

  /** A subkey is mixed into a half before it is used instead of after it was made. */
  lemma {:induction false} RoundsExchange(s: Boxes, p: seq<Word>, n: nat, l: Word, r: Word)
    requires n < |p|
    ensures var (x, y) := Exchanged(s, p, n, l, r); Rounds(s, p, n, Xor(l, p[0]), r) == (Xor(x, p[n]), y)
    decreases n
  {
    hide Scaled, Xor;
    if n > 0 {
      RoundsExchange(s, p, n - 1, l, r);
      var (x, y) := Exchanged(s, p, n - 1, l, r);
      var left := Xor(x, p[n - 1]);
      XorsRegroup(Scaled(s, left), y, p[n]);
    }
  }

  /** The rounds with their subkeys moved compute the same block, for all boxes, subkeys and numbers of rounds. */
  lemma EncryptsAsBlowfish(s: Boxes, p: seq<Word>, l: Word, r: Word)
    requires |p| >= 2
    ensures Encrypted(s, p, l, r) == Blowfish(s, p, l, r)
  {
    hide Rounds, Exchanged, Xor, Scaled;
    RoundsExchange(s, p, |p| - 2, l, r);
  }

  // ----- the macros -----

  /** BF_ROUND(L, R, n) changes R: the subkey and the mixed box entries are added one after the other. */
  method Round(s: Boxes, p: array<Word>, l: Word, r: Word, n: nat) returns (t: Word)
    requires n + 1 < p.Length
    ensures t == Xor(r, Key(s, l, p[n + 1]))
  {
    hide Xor, Add;
    var tmp1 := l & 0xFF;
    var tmp2 := (l >> 8) & 0xFF;
    var tmp3 := (l >> 16) & 0xFF;
    var tmp4 := l >> 24;
    tmp1 := s.s3(tmp1 as bv8);
    tmp2 := s.s2(tmp2 as bv8);
    tmp3 := s.s1(tmp3 as bv8);
    tmp3 := Add(tmp3, s.s0(tmp4 as bv8));
    tmp3 := Xor(tmp3, tmp2);
    t := Xor(r, p[n + 1]);
    tmp3 := Add(tmp3, tmp1);
    t := Xor(t, tmp3);
    XorSwap(r, p[n + 1], tmp3);
  }

  lemma XorSwap(a: Word, b: Word, c: Word)
    ensures Xor(Xor(a, b), c) == Xor(a, Xor(c, b))
  {
  }

  /** BF_ENCRYPT: sixteen rounds with the halves changing places, and the final exchange. */
  method Encrypt(s: Boxes, p: array<Word>, left: Word, right: Word) returns (l: Word, r: Word)
    requires p.Length == N + 2
    ensures (l, r) == Encrypted(s, p[..], left, right)
  {
    hide Key, Xor, Rounds;
    l, r := Xor(left, p[0]), right;
    ghost var a := l;
    var n := 0;
    RoundsNone(s, p[..], a, right);
    while n < N
      invariant 0 <= n <= N && n % 2 == 0
      invariant Rounds(s, p[..], n, a, right) == (l, r)
    {
      RoundsMore(s, p[..], n, a, right);
      r := Round(s, p, l, r, n);
      RoundsMore(s, p[..], n + 1, a, right);
      l := Round(s, p, r, l, n + 1);
      n := n + 2;
    }
    var tmp4 := r;
    r := l;
    l := Xor(tmp4, p[N + 1]);
  }
}
