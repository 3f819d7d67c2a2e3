/** cocoons/text/text.c: counting the characters of a UTF-8 string eight bytes at a time. */
module Utf8 {
  /** A byte of the form 10xxxxxx. */
  predicate Continues(b: bv8) {
    b & 0xC0 == 0x80
  }

  function Tails(t: seq<bv8>): (n: nat)
    ensures n <= |t|
  {
    if t == [] then 0 else Tails(t[..|t| - 1]) + if Continues(t[|t| - 1]) then 1 else 0
  }

  /** Where the string that starts at s ends. */
  function End(m: seq<bv8>, s: nat): (z: nat)
    requires s <= |m|
    ensures s <= z <= |m| && (z < |m| ==> m[z] == 0)
    ensures forall k :: s <= k < z ==> m[k] != 0
    decreases |m| - s
  {
    if s == |m| || m[s] == 0 then s else End(m, s + 1)
  }

  lemma {:induction false} EndFrom(m: seq<bv8>, s: nat, t: nat)
    requires s <= t <= |m| && forall k :: s <= k < t ==> m[k] != 0
    ensures End(m, s) == End(m, t)
    decreases t - s
  {
    if s < t {
      EndFrom(m, s + 1, t);
    }
  }

  lemma {:induction false} TailsConcat(a: seq<bv8>, b: seq<bv8>)
    ensures Tails(a + b) == Tails(a) + Tails(b)
    decreases |b|
  {
    if b == [] {
      assert a + b == a;
    } else {
      assert (a + b)[..|a + b| - 1] == a + b[..|b| - 1];
      TailsConcat(a, b[..|b| - 1]);
    }
  }

  // ----- one byte -----

  function Mark(b: bv8): (n: nat)
    ensures n == if Continues(b) then 1 else 0
  {
    var x := (b >> 7) & (!b >> 6);
    assert x == if Continues(b) then 1 else 0;
    x as nat
  }

  lemma TailsOne(m: seq<bv8>, start: nat, s: nat)
    requires start <= s < |m|
    ensures Tails(m[start..s + 1]) == Tails(m[start..s]) + Mark(m[s])
  {
    assert m[start..s + 1][..s - start] == m[start..s];
  }

  // ----- eight bytes -----

  const ONEMASK: bv64 := 0x0101_0101_0101_0101
  const HIGHMASK: bv64 := 0x8080_8080_8080_8080

  /** A little-endian load. */
  function Pack(a: bv8, b: bv8, c: bv8, d: bv8, e: bv8, f: bv8, g: bv8, h: bv8): (u: bv64) {
    (a as bv64) | ((b as bv64) << 8) | ((c as bv64) << 16) | ((d as bv64) << 24) |
    ((e as bv64) << 32) | ((f as bv64) << 40) | ((g as bv64) << 48) | ((h as bv64) << 56)
  }

  function Load(m: seq<bv8>, s: nat): (u: bv64)
    requires s + 8 <= |m|
  {
    Pack(m[s], m[s + 1], m[s + 2], m[s + 3], m[s + 4], m[s + 5], m[s + 6], m[s + 7])
  }

  /** Subtracting one from every byte borrows into its top bit only where the byte is zero. */
  lemma ZeroByte(a: bv8, b: bv8, c: bv8, d: bv8, e: bv8, f: bv8, g: bv8, h: bv8)
    ensures var u := Pack(a, b, c, d, e, f, g, h);
            (u - ONEMASK) & !u & HIGHMASK != 0 <==>
            a == 0 || b == 0 || c == 0 || d == 0 || e == 0 || f == 0 || g == 0 || h == 0
  {
  }

  function Bit(b: bv8): (r: bv64)
    ensures r <= 1
  {
    if Continues(b) then 1 else 0
  }

  function Spread(a: bv64, b: bv64, c: bv64, d: bv64, e: bv64, f: bv64, g: bv64, h: bv64): (u: bv64) {
    a | (b << 8) | (c << 16) | (d << 24) | (e << 32) | (f << 40) | (g << 48) | (h << 56)
  }

  /** The shift-and-mask step leaves one bit at the bottom of every byte that continues a character. */
  lemma BlockMarks(a: bv8, b: bv8, c: bv8, d: bv8, e: bv8, f: bv8, g: bv8, h: bv8)
    ensures var u := Pack(a, b, c, d, e, f, g, h);
            ((u & HIGHMASK) >> 7) & (!u >> 6) == Spread(Bit(a), Bit(b), Bit(c), Bit(d), Bit(e), Bit(f), Bit(g), Bit(h))
  {
  }

  /** Multiplying by ONEMASK adds up the bytes in the topmost one. */
  lemma ByteSum(a: bv64, b: bv64, c: bv64, d: bv64, e: bv64, f: bv64, g: bv64, h: bv64)
    requires a <= 1 && b <= 1 && c <= 1 && d <= 1 && e <= 1 && f <= 1 && g <= 1 && h <= 1
    ensures (Spread(a, b, c, d, e, f, g, h) * ONEMASK) >> 56 == a + b + c + d + e + f + g + h
  {
  }

  function Nat(x: bv64): (n: nat) {
    x as nat
  }

  function Flag(b: bv8): (n: nat) {
    if Continues(b) then 1 else 0
  }

  function Plus(x: bv64, b: bv8): (r: bv64) {
    x + Bit(b)
  }

  /** Small sums do not wrap around. */
  lemma PlusCounts(x: bv64, b: bv8)
    requires Nat(x) <= 7
    ensures Nat(Plus(x, b)) == Nat(x) + Flag(b)
  {
    hide Continues;
    assert x <= 7;
    if x == 0 {} else if x == 1 {} else if x == 2 {} else if x == 3 {} else if x == 4 {} else if x == 5 {}
    else if x == 6 {} else { assert x == 7; }
  }

  function BlockSum(u: bv64): (r: bv64) {
    ((((u & HIGHMASK) >> 7) & (!u >> 6)) * ONEMASK) >> 56
  }

  function BlockCount(u: bv64): (n: nat) {
    Nat(BlockSum(u))
  }

  lemma BlockSums(a: bv8, b: bv8, c: bv8, d: bv8, e: bv8, f: bv8, g: bv8, h: bv8)
    ensures BlockSum(Pack(a, b, c, d, e, f, g, h)) ==
            Plus(Plus(Plus(Plus(Plus(Plus(Plus(Bit(a), b), c), d), e), f), g), h)
  {
    hide Continues, Pack, Spread, Bit;
    BlockMarks(a, b, c, d, e, f, g, h);
    ByteSum(Bit(a), Bit(b), Bit(c), Bit(d), Bit(e), Bit(f), Bit(g), Bit(h));
  }

  lemma BlockCounts(a: bv8, b: bv8, c: bv8, d: bv8, e: bv8, f: bv8, g: bv8, h: bv8)
    ensures BlockCount(Pack(a, b, c, d, e, f, g, h)) ==
            Flag(a) + Flag(b) + Flag(c) + Flag(d) + Flag(e) + Flag(f) + Flag(g) + Flag(h)
  {
    hide Continues, Nat, Bit, Plus, BlockSum, Pack;
    BlockSums(a, b, c, d, e, f, g, h);
    FirstBit(a);
    var x2 := Plus(Bit(a), b);
    var x3 := Plus(x2, c);
    var x4 := Plus(x3, d);
    var x5 := Plus(x4, e);
    var x6 := Plus(x5, f);
    var x7 := Plus(x6, g);
    PlusCounts(Bit(a), b);
    PlusCounts(x2, c);
    PlusCounts(x3, d);
    PlusCounts(x4, e);
    PlusCounts(x5, f);
    PlusCounts(x6, g);
    PlusCounts(x7, h);
  }

  lemma FirstBit(b: bv8)
    ensures Nat(Bit(b)) == Flag(b)
  {
  }

  lemma TailsFour(m: seq<bv8>, start: nat, s: nat)
    requires start <= s && s + 4 <= |m|
    ensures Tails(m[start..s + 4]) == Tails(m[start..s]) + Flag(m[s]) + Flag(m[s + 1]) + Flag(m[s + 2]) + Flag(m[s + 3])
  {
    hide Tails, Continues;
    TailsOne(m, start, s);
    TailsOne(m, start, s + 1);
    TailsOne(m, start, s + 2);
    TailsOne(m, start, s + 3);
  }

  /** A block without zero bytes is counted as its eight bytes would be. */
  lemma BlockTails(m: seq<bv8>, start: nat, s: nat)
    requires start <= s && s + 8 <= |m|
    ensures Tails(m[start..s + 8]) == Tails(m[start..s]) + BlockCount(Load(m, s))
  {
    hide Tails, BlockCount, Pack, Continues, Mark, Flag;
    BlockCounts(m[s], m[s + 1], m[s + 2], m[s + 3], m[s + 4], m[s + 5], m[s + 6], m[s + 7]);
    TailsFour(m, start, s);
    TailsFour(m, start, s + 4);
  }

  /** The string's bytes up to s, all of them before its end, have been looked at. */
  ghost predicate Counted(m: seq<bv8>, start: nat, s: nat, count: nat) {
    start <= s <= |m| && s <= End(m, start) && count == Tails(m[start..s])
  }

  lemma CountOne(m: seq<bv8>, start: nat, s: nat, count: nat)
    requires Counted(m, start, s, count) && s < |m| && m[s] != 0
    ensures Counted(m, start, s + 1, count + Mark(m[s]))
  {
    hide Tails, Continues;
    TailsOne(m, start, s);
  }

  lemma CountEight(m: seq<bv8>, start: nat, s: nat, count: nat)
    requires Counted(m, start, s, count) && s + 8 <= |m|
    requires var u := Load(m, s); (u - ONEMASK) & !u & HIGHMASK == 0
    ensures Counted(m, start, s + 8, count + BlockCount(Load(m, s)))
  {
    hide Tails, BlockCount, Pack;
    ZeroByte(m[s], m[s + 1], m[s + 2], m[s + 3], m[s + 4], m[s + 5], m[s + 6], m[s + 7]);
    NoZero(m, start, s);
    BlockTails(m, start, s);
  }

  /** cp_strlen_utf8. Addresses are indices of mem, so the string may start at any alignment; the last
      word of memory is readable as a whole. */
  method StrlenUtf8(mem: array<bv8>, start: nat) returns (n: nat)
    requires mem.Length % 8 == 0 && start <= mem.Length && End(mem[..], start) < mem.Length
    ensures var t := mem[..][start..End(mem[..], start)]; n == |t| - Tails(t)
  {
    hide Continues, Tails, Pack, BlockCount, Counted, Mark;
    var s: nat, count: nat := start, 0;
    ghost var m := mem[..];
    Nothing(m, start);
    while s % 8 != 0
      invariant start <= s <= End(m, start) && Counted(m, start, s, count)
      decreases End(m, start) - s
    {
      var b := mem[s];
      if b == 0 {
        AtEnd(m, start, s, count);
        return s - start - count;
      }
      CountOne(m, start, s, count);
      InString(m, start, s + 1, count + Mark(b));
      count := count + Mark(b);
      s := s + 1;
    }
    s, count := CountBlocks(mem, start, s, count);
    while mem[s] != 0
      invariant start <= s <= End(m, start) && Counted(m, start, s, count)
      decreases End(m, start) - s
    {
      CountOne(m, start, s, count);
      InString(m, start, s + 1, count + Mark(mem[s]));
      count := count + Mark(mem[s]);
      s := s + 1;
    }
    AtEnd(m, start, s, count);
    return s - start - count;
  }

  /** The loop over complete words: it stops in front of the first one that holds a zero byte. */
  method CountBlocks(mem: array<bv8>, ghost start: nat, s0: nat, count0: nat) returns (s: nat, count: nat)
    requires mem.Length % 8 == 0 && start <= mem.Length && End(mem[..], start) < mem.Length
    requires s0 % 8 == 0 && Counted(mem[..], start, s0, count0)
    ensures start <= s <= End(mem[..], start) && Counted(mem[..], start, s, count)
  {
    hide Continues, Tails, Pack, BlockCount, Counted, Mark;
    s, count := s0, count0;
    ghost var m := mem[..];
    InString(m, start, s, count);
    while true
      invariant start <= s <= End(m, start) && s % 8 == 0 && Counted(m, start, s, count)
      decreases End(m, start) - s
    {
      var u := Load(mem[..], s);
      if (u - ONEMASK) & !u & HIGHMASK != 0 {
        return;
      }
      CountEight(m, start, s, count);
      count := count + BlockCount(u);
      s := s + 8;
      InString(m, start, s, count);
    }
  }

  lemma InString(m: seq<bv8>, start: nat, s: nat, count: nat)
    requires Counted(m, start, s, count)
    ensures start <= s <= |m| && s <= End(m, start)
  {
  }

  lemma Nothing(m: seq<bv8>, start: nat)
    requires start <= |m|
    ensures Counted(m, start, start, 0)
  {
  }

  lemma AtEnd(m: seq<bv8>, start: nat, s: nat, count: nat)
    requires Counted(m, start, s, count) && s < |m| && m[s] == 0
    ensures s == End(m, start) && s - start - count == |m[start..s]| - Tails(m[start..s]) >= 0
  {
  }

  lemma NoZero(m: seq<bv8>, start: nat, s: nat)
    requires start <= s && s + 8 <= |m| && s <= End(m, start) && forall k :: s <= k < s + 8 ==> m[k] != 0
    ensures s + 8 <= End(m, start)
  {
    EndFrom(m, start, s + 8);
  }

  // ----- section 4 of RFC 3629 -----

  /** How many bytes the character at the head of t has, if there is a well-formed one. */
  function CharLength(t: seq<bv8>): (n: nat)
    ensures n <= |t| && n <= 4
  {
    if t == [] then 0
    else if t[0] <= 0x7F then 1
    else if |t| >= 2 && 0xC2 <= t[0] <= 0xDF && Continues(t[1]) then 2
    else if |t| >= 3 && 0xE0 <= t[0] <= 0xEF && Continues(t[1]) && Continues(t[2]) &&
            (t[0] == 0xE0 ==> t[1] >= 0xA0) && (t[0] == 0xED ==> t[1] <= 0x9F) then 3
    else if |t| >= 4 && 0xF0 <= t[0] <= 0xF4 && Continues(t[1]) && Continues(t[2]) && Continues(t[3]) &&
            (t[0] == 0xF0 ==> t[1] >= 0x90) && (t[0] == 0xF4 ==> t[1] <= 0x8F) then 4
    else 0
  }

  /** t is the encoding of n characters. */
  predicate Encodes(t: seq<bv8>, n: nat)
    decreases n
  {
    if n == 0 then t == [] else CharLength(t) > 0 && Encodes(t[CharLength(t)..], n - 1)
  }

  lemma CharTails(t: seq<bv8>)
    requires CharLength(t) > 0
    ensures Tails(t[..CharLength(t)]) == CharLength(t) - 1
  {
    hide Tails;
    var n := CharLength(t);
    assert !Continues(t[0]);
    TailsNone();
    TailsOne(t, 0, 0);
    if n > 1 { TailsOne(t, 0, 1); }
    if n > 2 { TailsOne(t, 0, 2); }
    if n > 3 { TailsOne(t, 0, 3); }
    assert t[0..n] == t[..n] && t[0..0] == [];
  }

  lemma TailsNone()
    ensures Tails([]) == 0
  {
  }

  /** For well-formed text the count is the number of characters. */
  lemma {:induction false} CountsCharacters(t: seq<bv8>, n: nat)
    requires Encodes(t, n)
    ensures |t| - Tails(t) == n
    decreases n
  {
    hide CharLength;
    if n > 0 {
      var k := CharLength(t);
      CharTails(t);
      CountsCharacters(t[k..], n - 1);
      assert t == t[..k] + t[k..];
      TailsConcat(t[..k], t[k..]);
    }
  }
}
