/** cocoons/web/bcrypt/crypt_blowfish.c: BF_set_key, which expands a password without branching on its bytes. */
module KeySetup {
  import opened Feistel

  const WORDS := 18

  /** The n-th byte of the password and its terminating zero, over and over. */
  function Cyclic(key: seq<bv8>, n: nat): (b: bv8) {
    var k := n % (|key| + 1);
    if k < |key| then key[k] else 0
  }

  /** The password is followed by its zero byte, and then starts over. */
  lemma Repeats(key: seq<bv8>, m: nat, i: nat)
    requires i <= |key|
    ensures Cyclic(key, m * (|key| + 1) + i) == (key + [0])[i]
  {
    ModUnique(m * (|key| + 1) + i, m, i, |key| + 1);
  }

  // ----- words -----

  function Unsigned(b: bv8): (w: Word) {
    b as Word
  }

  /** A signed char widened to 32 bits. */
  function Signed(b: bv8): (w: Word) {
    if b >= 0x80 then (b as Word) | 0xFFFF_FF00 else b as Word
  }

  /** Bytes from 0x80 on stand for negative numbers. */
  lemma SignExtends(b: bv8)
    ensures Signed(b) == if b < 0x80 then b as Word else (b as Word) - 0x100
  {
  }

  function Shifted(w: Word, b: Word): (r: Word) {
    (w << 8) | b
  }

  function Correct(key: seq<bv8>, i: nat): (w: Word) {
    WordOf(Cyclic(key, 4 * i), Cyclic(key, 4 * i + 1), Cyclic(key, 4 * i + 2), Cyclic(key, 4 * i + 3))
  }

  function Buggy(key: seq<bv8>, i: nat): (w: Word) {
    Shifted(Shifted(Shifted(Signed(Cyclic(key, 4 * i)), Signed(Cyclic(key, 4 * i + 1))),
                    Signed(Cyclic(key, 4 * i + 2))),
            Signed(Cyclic(key, 4 * i + 3)))
  }

  /** The word of the chosen variant: 1 emulates the sign extension bug. */
  function Chosen(key: seq<bv8>, bug: bool, i: nat): (w: Word) {
    if bug then Buggy(key, i) else Correct(key, i)
  }

  lemma FoldsToWord(a: bv8, b: bv8, c: bv8, d: bv8)
    ensures Shifted(Shifted(Shifted(Shifted(0, Unsigned(a)), Unsigned(b)), Unsigned(c)), Unsigned(d)) ==
            WordOf(a, b, c, d)
  {
  }

  /** Sign extension of a word's first byte is shifted out. */
  lemma FirstSignLost(a: bv8, b: bv8, c: bv8, d: bv8)
    ensures b < 0x80 && c < 0x80 && d < 0x80 ==>
              Shifted(Shifted(Shifted(Signed(a), Signed(b)), Signed(c)), Signed(d)) == WordOf(a, b, c, d)
  {
  }

  // ----- the safety measure -----

  ghost predicate SameWords(key: seq<bv8>, n: nat) {
    forall i :: 0 <= i < n ==> Correct(key, i) == Buggy(key, i)
  }

  predicate LateSign(key: seq<bv8>, i: nat) {
    Cyclic(key, 4 * i + 1) >= 0x80 || Cyclic(key, 4 * i + 2) >= 0x80 || Cyclic(key, 4 * i + 3) >= 0x80
  }

  /** Some byte that is not the first of its word has its top bit set. */
  ghost predicate SignsExtended(key: seq<bv8>, n: nat) {
    exists i :: 0 <= i < n && LateSign(key, i)
  }

  function Collected(sign: Word, w: Word): (r: Word) {
    sign | (w & 0x80)
  }

  function Differing(diff: Word, a: Word, b: Word): (r: Word) {
    diff | (a ^ b)
  }

  lemma CollectedStays(sign: Word, w: Word, b: bv8)
    requires sign == 0 || sign == 0x80
    ensures Collected(sign, Shifted(w, Signed(b))) == if sign == 0x80 || b >= 0x80 then 0x80 else 0
  {
  }

  lemma DifferingZero(diff: Word, a: Word, b: Word)
    ensures Differing(diff, a, b) == 0 <==> diff == 0 && a == b
  {
    XorZero(a, b);
    OrZero(diff, a ^ b);
  }

  lemma XorZero(a: Word, b: Word)
    ensures a ^ b == 0 <==> a == b
  {
  }

  lemma OrZero(a: Word, b: Word)
    ensures a | b == 0 <==> a == 0 && b == 0
  {
  }

  /** The branch-free end of BF_set_key. */
  function Action(sign: Word, diff: Word, safety: Word): (r: Word) {
    var d1 := diff | (diff >> 16);
    var d2 := d1 & 0xFFFF;
    var d3 := d2 + 0xFFFF;
    (sign << 9) & (!d3 & safety)
  }

  /** It yields bit 16 exactly when safety is asked for, a sign was extended and no word differs. */
  lemma ActionDecides(sign: Word, diff: Word, flags: bv8)
    requires sign == 0 || sign == 0x80
    ensures Action(sign, diff, ((flags as Word) & 2) << 15) ==
            if flags & 2 != 0 && sign == 0x80 && diff == 0 then 0x10000 else 0
  {
    var safety := ((flags as Word) & 2) << 15;
    assert safety == if flags & 2 != 0 then 0x10000 else 0;
    ActionBits(sign, diff, safety);
  }

  lemma ActionBits(sign: Word, diff: Word, safety: Word)
    requires (sign == 0 || sign == 0x80) && (safety == 0 || safety == 0x10000)
    ensures Action(sign, diff, safety) == if safety != 0 && sign == 0x80 && diff == 0 then 0x10000 else 0
  {
  }

  // ----- the method -----

  function Next(key: seq<bv8>, ptr: nat): (p: nat)
    requires ptr <= |key|
    ensures p <= |key|
  {
    if ptr == |key| then 0 else ptr + 1
  }

  /** The pointer goes round with the byte count. */
  lemma NextCyclic(key: seq<bv8>, n: nat)
    ensures Next(key, n % (|key| + 1)) == (n + 1) % (|key| + 1)
  {
    var m := |key| + 1;
    ModNext(n, m);
  }

  lemma ModNext(n: nat, m: nat)
    requires m > 0
    ensures (n + 1) % m == if n % m == m - 1 then 0 else n % m + 1
  {
    var q, r := n / m, n % m;
    assert n == q * m + r;
    if r == m - 1 {
      assert n + 1 == (q + 1) * m;
      ModUnique(n + 1, q + 1, 0, m);
    } else {
      ModUnique(n + 1, q, r + 1, m);
    }
  }

  lemma ModUnique(y: int, q: int, r: int, m: nat)
    requires m > 0 && y == q * m + r && 0 <= r < m
    ensures y % m == r
  {
    var d := y / m - q;
    assert y % m - r == -(d * m);
  }

  /** The words after j of their four bytes. */
  function CorrectTo(key: seq<bv8>, i: nat, j: nat): (w: Word) {
    if j == 0 then 0 else Shifted(CorrectTo(key, i, j - 1), Unsigned(Cyclic(key, 4 * i + j - 1)))
  }

  function BuggyTo(key: seq<bv8>, i: nat, j: nat): (w: Word) {
    if j == 0 then 0 else Shifted(BuggyTo(key, i, j - 1), Signed(Cyclic(key, 4 * i + j - 1)))
  }

  lemma ShiftedZero(b: Word)
    ensures Shifted(0, b) == b
  {
  }

  lemma FourBytes(key: seq<bv8>, i: nat)
    ensures CorrectTo(key, i, 4) == Correct(key, i) && BuggyTo(key, i, 4) == Buggy(key, i)
  {
    hide Shifted, Unsigned, Signed, WordOf, Cyclic;
    var a, b, c, d := Cyclic(key, 4 * i), Cyclic(key, 4 * i + 1), Cyclic(key, 4 * i + 2), Cyclic(key, 4 * i + 3);
    FoldsToWord(a, b, c, d);
    ShiftedZero(Signed(a));
    assert CorrectTo(key, i, 1) == Shifted(0, Unsigned(a)) && BuggyTo(key, i, 1) == Signed(a);
    assert CorrectTo(key, i, 2) == Shifted(CorrectTo(key, i, 1), Unsigned(b));
    assert BuggyTo(key, i, 2) == Shifted(BuggyTo(key, i, 1), Signed(b));
    assert CorrectTo(key, i, 3) == Shifted(CorrectTo(key, i, 2), Unsigned(c));
    assert BuggyTo(key, i, 3) == Shifted(BuggyTo(key, i, 2), Signed(c));
  }

  /** Whether one of the bytes 1 to j - 1 of word i has its top bit set. */
  predicate SignIn(key: seq<bv8>, i: nat, j: nat) {
    j > 1 && (Cyclic(key, 4 * i + j - 1) >= 0x80 || SignIn(key, i, j - 1))
  }

  lemma SignInWord(key: seq<bv8>, i: nat)
    ensures SignIn(key, i, 4) <==> LateSign(key, i)
  {
    hide Cyclic;
    assert SignIn(key, i, 2) <==> Cyclic(key, 4 * i + 1) >= 0x80 || SignIn(key, i, 1);
    assert SignIn(key, i, 3) <==> Cyclic(key, 4 * i + 2) >= 0x80 || SignIn(key, i, 2);
  }

  function SignFlag(b: bool): (w: Word) {
    if b then 0x80 else 0
  }

  /** The inner loop: four bytes of the password go into both versions of a word. */
  method ReadWord(key: seq<bv8>, ptr: nat, sign: Word, ghost i: nat, ghost was: bool)
    returns (tmp0: Word, tmp1: Word, next: nat, now: Word)
    requires ptr == 4 * i % (|key| + 1) && sign == SignFlag(was)
    ensures tmp0 == Correct(key, i) && tmp1 == Buggy(key, i) && next == 4 * (i + 1) % (|key| + 1)
    ensures now == SignFlag(was || LateSign(key, i))
  {
    hide Shifted, Unsigned, Signed, Correct, Buggy, Collected, SignFlag, LateSign;
    tmp0, tmp1, next, now := 0, 0, ptr, sign;
    var j := 0;
    while j < 4
      invariant 0 <= j <= 4 && next == (4 * i + j) % (|key| + 1)
      invariant tmp0 == CorrectTo(key, i, j) && tmp1 == BuggyTo(key, i, j)
      invariant now == SignFlag(was || SignIn(key, i, j))
    {
      var b := if next == |key| then 0 else key[next];
      assert b == Cyclic(key, 4 * i + j);
      tmp0 := Shifted(tmp0, Unsigned(b));
      CollectFlag(was || SignIn(key, i, j), tmp1, b);
      tmp1 := Shifted(tmp1, Signed(b));
      if j > 0 {
        now := Collected(now, tmp1);
      }
      NextCyclic(key, 4 * i + j);
      next := Next(key, next);
      j := j + 1;
    }
    FourBytes(key, i);
    SignInWord(key, i);
  }

  lemma CollectFlag(was: bool, w: Word, b: bv8)
    ensures Collected(SignFlag(was), Shifted(w, Signed(b))) == SignFlag(was || b >= 0x80)
  {
    CollectedStays(SignFlag(was), w, b);
  }

  lemma SameMore(key: seq<bv8>, i: nat)
    ensures SameWords(key, i + 1) <==> SameWords(key, i) && Correct(key, i) == Buggy(key, i)
    ensures SignsExtended(key, i + 1) <==> SignsExtended(key, i) || LateSign(key, i)
  {
    hide Correct, Buggy, LateSign;
  }

  /** BF_set_key: the expanded key, and the initial subkeys with the expanded key added. Bit 16 of the first
      subkey is flipped exactly when the safety flag is set, the sign extension bug would not have changed
      any word, and it nevertheless had a sign to extend. */
  method SetKey(key: seq<bv8>, expanded: array<Word>, initial: array<Word>, flags: bv8, state: seq<Word>)
    requires 0 !in key && |state| == WORDS && expanded.Length == initial.Length == WORDS && expanded != initial
    modifies expanded, initial
    ensures forall k :: 0 <= k < WORDS ==> expanded[k] == Chosen(key, flags & 1 != 0, k)
    ensures forall k :: 1 <= k < WORDS ==> initial[k] == Xor(state[k], Chosen(key, flags & 1 != 0, k))
    ensures initial[0] ==
            Xor(Xor(state[0], Chosen(key, flags & 1 != 0, 0)),
                if flags & 2 != 0 && SameWords(key, WORDS) && SignsExtended(key, WORDS) then 0x10000 else 0)
  {
    hide Correct, Buggy, Xor, Differing, SignFlag, SignsExtended, SameWords, LateSign;
    var bug := flags & 1 != 0;
    var sign: Word, diff: Word, ptr := 0, 0, 0;
    assert SignFlag(false) == 0 by { NoFlag(); }
    NothingYet(key);
    var i := 0;
    while i < WORDS
      invariant 0 <= i <= WORDS && ptr == 4 * i % (|key| + 1)
      invariant sign == SignFlag(SignsExtended(key, i)) && (diff == 0 <==> SameWords(key, i))
      invariant forall k :: 0 <= k < i ==> expanded[k] == Chosen(key, bug, k)
      invariant forall k :: 0 <= k < i ==> initial[k] == Xor(state[k], Chosen(key, bug, k))
    {
      var tmp0, tmp1;
      tmp0, tmp1, ptr, sign := ReadWord(key, ptr, sign, i, SignsExtended(key, i));
      DifferingZero(diff, tmp0, tmp1);
      diff := Differing(diff, tmp0, tmp1);
      SameMore(key, i);
      expanded[i] := if bug then tmp1 else tmp0;
      initial[i] := Xor(state[i], if bug then tmp1 else tmp0);
      i := i + 1;
    }
    Decide(sign, diff, flags, SignsExtended(key, WORDS));
    initial[0] := Xor(initial[0], Action(sign, diff, ((flags as Word) & 2) << 15));
  }

  lemma NoFlag()
    ensures SignFlag(false) == 0
  {
  }

  lemma NothingYet(key: seq<bv8>)
    ensures SameWords(key, 0) && !SignsExtended(key, 0)
  {
  }

  lemma Decide(sign: Word, diff: Word, flags: bv8, extended: bool)
    requires sign == SignFlag(extended)
    ensures Action(sign, diff, ((flags as Word) & 2) << 15) ==
            if flags & 2 != 0 && extended && diff == 0 then 0x10000 else 0
  {
    ActionDecides(sign, diff, flags);
  }
}
