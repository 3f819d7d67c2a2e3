/** core/sys.c: str_replace, which counts the occurrences, computes the length, and then copies. */
module Replace {
  import opened Bytes

  predicate OccursAt(s: seq<Byte>, t: seq<Byte>, i: nat) {
    i + |t| <= |s| && s[i..i + |t|] == t
  }

  /** strstr: the first place where t occurs in s. */
  function Find(s: seq<Byte>, t: seq<Byte>): (r: Option<nat>)
    ensures r.Some? ==> OccursAt(s, t, r.value)
    ensures forall i: nat {:trigger OccursAt(s, t, i)} :: OccursAt(s, t, i) ==> r.Some? && r.value <= i
    decreases |s|
  {
    if OccursAt(s, t, 0) then Some(0)
    else if s == [] then None
    else
      var r := Find(s[1..], t);
      FindShift(s, t);
      match r case None => None case Some(i) => Some(i + 1)
  }

  lemma FindShift(s: seq<Byte>, t: seq<Byte>)
    requires s != []
    ensures forall i: nat {:trigger OccursAt(s[1..], t, i)} :: OccursAt(s[1..], t, i) <==> OccursAt(s, t, i + 1)
    ensures forall i: nat {:trigger OccursAt(s, t, i)} :: i > 0 ==> (OccursAt(s, t, i) <==> OccursAt(s[1..], t, i - 1))
  {
    forall i: nat {:trigger OccursAt(s[1..], t, i)} ensures OccursAt(s[1..], t, i) <==> OccursAt(s, t, i + 1) {
      if i + 1 + |t| <= |s| { assert s[1..][i..i + |t|] == s[i + 1..i + 1 + |t|]; }
    }
  }

  /** Leftmost, non-overlapping replacement. */
  function Replaced(s: seq<Byte>, from: seq<Byte>, to: seq<Byte>): (r: seq<Byte>)
    requires from != []
    decreases |s|
  {
    match Find(s, from)
    case None => s
    case Some(i) => s[..i] + to + Replaced(s[i + |from|..], from, to)
  }

  function Count(s: seq<Byte>, from: seq<Byte>): (n: nat)
    requires from != []
    decreases |s|
  {
    match Find(s, from)
    case None => 0
    case Some(i) => 1 + Count(s[i + |from|..], from)
  }

  // ----- what replacement means -----

  /** The stretches between the occurrences. */
  function Pieces(s: seq<Byte>, from: seq<Byte>): (r: seq<seq<Byte>>)
    requires from != []
    ensures r != []
    decreases |s|
  {
    match Find(s, from)
    case None => [s]
    case Some(i) => [s[..i]] + Pieces(s[i + |from|..], from)
  }

  function Join(pieces: seq<seq<Byte>>, glue: seq<Byte>): (r: seq<Byte>)
    requires pieces != []
  {
    if |pieces| == 1 then pieces[0] else pieces[0] + glue + Join(pieces[1..], glue)
  }

  /** One list of pieces joined with the old string is the text, joined with the new one the result. */
  lemma {:induction false} ReplacesPieces(s: seq<Byte>, from: seq<Byte>, to: seq<Byte>)
    requires from != []
    ensures s == Join(Pieces(s, from), from) && Replaced(s, from, to) == Join(Pieces(s, from), to)
    ensures |Pieces(s, from)| == Count(s, from) + 1
    decreases |s|
  {
    hide Find;
    if i: nat :| Find(s, from) == Some(i) {
      var rest := s[i + |from|..];
      ReplacesPieces(rest, from, to);
      assert s == s[..i] + s[i..i + |from|] + rest;
      assert Pieces(s, from)[1..] == Pieces(rest, from);
    }
  }

  lemma PrefixOccurs(s: seq<Byte>, n: nat, t: seq<Byte>, j: nat)
    requires n <= |s| && OccursAt(s[..n], t, j)
    ensures OccursAt(s, t, j)
  {
    assert s[..n][j..j + |t|] == s[j..j + |t|];
  }

  /** No piece, not even with all but the last byte of an occurrence behind it, contains the old string:
      the occurrences that were taken are the leftmost ones. */
  lemma {:induction false} PiecesAreFree(s: seq<Byte>, from: seq<Byte>, k: nat)
    requires from != [] && k < |Pieces(s, from)|
    ensures var p := Pieces(s, from)[k];
            Find(if k + 1 < |Pieces(s, from)| then p + from[..|from| - 1] else p, from).None?
    decreases |s|
  {
    hide Find;
    if i: nat :| Find(s, from) == Some(i) {
      var rest := s[i + |from|..];
      if k == 0 {
        var t := s[..i] + from[..|from| - 1];
        assert s[..i + |from|] == s[..i] + s[i..i + |from|] == s[..i] + from;
        assert s[..i + |from| - 1] == t;
        if j: nat :| Find(t, from) == Some(j) {
          PrefixOccurs(s, i + |from| - 1, from, j);
        }
      } else {
        PiecesAreFree(rest, from, k - 1);
        assert Pieces(s, from)[k] == Pieces(rest, from)[k - 1];
      }
    }
  }

  lemma {:induction false} ReplacedLength(s: seq<Byte>, from: seq<Byte>, to: seq<Byte>)
    requires from != []
    ensures |Replaced(s, from, to)| == |s| + Count(s, from) * (|to| - |from|)
    ensures Count(s, from) * |from| <= |s|
    decreases |s|
  {
    hide Find;
    if i: nat :| Find(s, from) == Some(i) {
      ReplacedLength(s[i + |from|..], from, to);
      var n := Count(s[i + |from|..], from);
      assert (1 + n) * (|to| - |from|) == (|to| - |from|) + n * (|to| - |from|);
      assert (1 + n) * |from| == |from| + n * |from|;
    }
  }

  // ----- unsigned lengths -----

  const SIZE: int := 0x1_0000_0000_0000_0000

  function Unsigned(n: int): (r: nat)
    ensures r < SIZE
  {
    n % SIZE
  }

  /** The length formula, wrapping at every operation. */
  function WrappedLength(before: nat, after: nat, count: nat, newLen: nat, oldLen: nat): (r: nat) {
    Unsigned(Unsigned(before + after) + Unsigned(count * Unsigned(newLen - oldLen)))
  }

  lemma ModProduct(n: nat, d: int)
    ensures (n * (d % SIZE)) % SIZE == (n * d) % SIZE
  {
    var q := d / SIZE;
    assert d == q * SIZE + d % SIZE;
    assert n * d == n * q * SIZE + n * (d % SIZE) by {
      assert n * (q * SIZE) == n * q * SIZE;
      assert n * (q * SIZE + d % SIZE) == n * (q * SIZE) + n * (d % SIZE);
    }
    ModShift(n * (d % SIZE), n * q);
  }

  lemma ModShift(x: int, k: int)
    ensures (k * SIZE + x) % SIZE == x % SIZE
  {
    var y := k * SIZE + x;
    assert y == (k + x / SIZE) * SIZE + x % SIZE;
    DivUnique(y, k + x / SIZE, x % SIZE);
  }

  lemma DivUnique(y: int, q: int, r: int)
    requires y == q * SIZE + r && 0 <= r < SIZE
    ensures y % SIZE == r
  {
  }

  /** Whatever wraps on the way, the final length is right if the right length is representable. */
  lemma WrappedLengthExact(before: nat, after: nat, count: nat, newLen: nat, oldLen: nat)
    requires before + after < SIZE && 0 <= before + after + count * (newLen - oldLen) < SIZE
    ensures WrappedLength(before, after, count, newLen, oldLen) == before + after + count * (newLen - oldLen)
  {
    var e := count * (newLen - oldLen);
    ModProduct(count, newLen - oldLen);
    assert Unsigned(count * Unsigned(newLen - oldLen)) == e % SIZE;
    ModSum(before + after, e);
  }

  lemma ModSum(len: nat, e: int)
    requires 0 <= len + e < SIZE
    ensures (len + e % SIZE) % SIZE == len + e
  {
    assert len + e % SIZE == (-(e / SIZE)) * SIZE + (len + e);
    ModShift(len + e, -(e / SIZE));
  }

  // ----- the method -----

  /** memcpy, strcpy */
  method CopyInto(dst: array<Byte>, at: nat, src: seq<Byte>)
    requires at + |src| <= dst.Length
    modifies dst
    ensures dst[..at] == old(dst[..at]) && dst[at..at + |src|] == src
    ensures dst[..at + |src|] == old(dst[..at]) + src
  {
    var k := 0;
    while k < |src|
      invariant k <= |src| && dst[..at] == old(dst[..at]) && dst[at..at + k] == src[..k]
    {
      dst[at + k] := src[k];
      k := k + 1;
    }
    assert dst[..at + |src|] == dst[..at] + dst[at..at + |src|];
  }

  method CountOccurrences(str: seq<Byte>, from: seq<Byte>) returns (count: nat, p: nat)
    requires from != []
    ensures count == Count(str, from) && p <= |str|
  {
    hide Find;
    count, p := 0, 0;
    assert str[0..] == str;
    while Find(str[p..], from).Some?
      invariant p <= |str| && count + Count(str[p..], from) == Count(str, from)
      decreases |str| - p
    {
      var q := p + Find(str[p..], from).value;
      assert str[p..][q - p + |from|..] == str[q + |from|..];
      count := count + 1;
      p := q + |from|;
    }
  }

  /** A stretch of the text and the new string behind it. */
  method Append(dst: array<Byte>, at: nat, stretch: seq<Byte>, to: seq<Byte>) returns (r: nat)
    requires at + |stretch| + |to| <= dst.Length
    modifies dst
    ensures r == at + |stretch| + |to| && dst[..r] == old(dst[..at]) + stretch + to
  {
    CopyInto(dst, at, stretch);
    CopyInto(dst, at + |stretch|, to);
    r := at + |stretch| + |to|;
  }

  method ResultLength(str: seq<Byte>, from: seq<Byte>, to: seq<Byte>) returns (count: nat, len: nat)
    requires from != [] && |str| < SIZE && |Replaced(str, from, to)| < SIZE
    ensures len == |Replaced(str, from, to)| && (|from| != |to| ==> count == Count(str, from))
  {
    hide Replaced, Count, WrappedLength;
    ReplacedLength(str, from, to);
    count, len := 0, |str|;
    if |from| != |to| {
      var p;
      count, p := CountOccurrences(str, from);
      WrappedLengthExact(p, |str| - p, count, |to|, |from|);
      len := WrappedLength(p, |str| - p, count, |to|, |from|);
    }
  }

  /** The buffer has exactly one byte more than the result: the terminating zero. */
  method StrReplace(str: seq<Byte>, from: seq<Byte>, to: seq<Byte>) returns (ret: array<Byte>)
    requires from != [] && |str| < SIZE && |Replaced(str, from, to)| < SIZE
    ensures fresh(ret) && ret.Length == |Replaced(str, from, to)| + 1
    ensures ret[..ret.Length - 1] == Replaced(str, from, to) && ret[ret.Length - 1] == NUL
  {
    hide Find, Replaced, Count;
    ghost var whole := Replaced(str, from, to);
    var sameSize := |from| == |to|;
    var count, retLen := ResultLength(str, from, to);
    ret := new Byte[retLen + 1];
    var p: nat, r: nat := 0, 0;
    assert str[0..] == str;
    assert ret[..0] + whole == whole;
    while true
      invariant p <= |str| && r <= |whole| && ret[..r] + Replaced(str[p..], from, to) == whole
      invariant !sameSize ==> count == Count(str[p..], from)
      decreases |str| - p
    {
      NoneLeft(str[p..], from, to);
      if !sameSize {
        if count == 0 {
          break;
        }
        count := count - 1;
      }
      var found := Find(str[p..], from);
      if found.None? {
        break;
      }
      var q := p + found.value;
      OneMore(str, p, q, from, to);
      ghost var before, rest := ret[..r], Replaced(str[q + |from|..], from, to);
      assert before + (str[p..q] + to + rest) == before + str[p..q] + to + rest;
      r := Append(ret, r, str[p..q], to);
      p := q + |from|;
    }
    CopyInto(ret, r, str[p..] + [NUL]);
    assert ret[..retLen] == whole;
  }

  lemma NoneLeft(s: seq<Byte>, from: seq<Byte>, to: seq<Byte>)
    requires from != []
    ensures Count(s, from) == 0 <==> Find(s, from).None?
    ensures Find(s, from).None? ==> Replaced(s, from, to) == s
  {
    hide Find;
  }

  lemma FoundFits(s: seq<Byte>, t: seq<Byte>, i: nat)
    requires Find(s, t) == Some(i)
    ensures i + |t| <= |s|
  {
    hide Find;
    assert OccursAt(s, t, i);
  }

  lemma OneMore(str: seq<Byte>, p: nat, q: nat, from: seq<Byte>, to: seq<Byte>)
    requires from != [] && p <= q <= |str| && Find(str[p..], from) == Some(q - p)
    ensures q + |from| <= |str|
    ensures Replaced(str[p..], from, to) == str[p..q] + to + Replaced(str[q + |from|..], from, to)
    ensures Count(str[p..], from) == 1 + Count(str[q + |from|..], from)
  {
    hide Find, OccursAt;
    FoundFits(str[p..], from, q - p);
    assert str[p..][..q - p] == str[p..q] && str[p..][q - p + |from|..] == str[q + |from|..];
  }
}
