/** core/larva.c: larva_chew, which removes comments and backslash escapes from a source text. */
module Chew {
  import opened Bytes
  import opened Grammar
  import opened Digest

  const TAB: Byte := 9
  const HASH: Byte := 35
  const BACKSLASH: Byte := 92
  const LETTER_N: Byte := 110
  const LETTER_T: Byte := 116

  // ----- what is kept -----

  function LineEnd(code: seq<Byte>, i: nat): (r: nat)
    ensures r >= i
    decreases |code| - i
  {
    if i >= |code| || code[i] == NEWLINE then i else LineEnd(code, i + 1)
  }

  /** The first of two hashes; a place past the end counts as no hash. */
  function DoubleHash(code: seq<Byte>, i: nat): (r: nat)
    ensures r >= i
    decreases |code| - i
  {
    if i >= |code| || (code[i] == HASH && i + 1 < |code| && code[i + 1] == HASH) then i else DoubleHash(code, i + 1)
  }

  predicate Escapes(code: seq<Byte>, i: nat) {
    i + 1 < |code| && code[i] == BACKSLASH
  }

  function Escaped(b: Byte): (r: seq<Byte>) {
    if b == LETTER_N then [NEWLINE] else if b == LETTER_T then [TAB] else []
  }

  predicate Comments(code: seq<Byte>, i: nat, quoted: bool) {
    i < |code| && code[i] == HASH && !quoted
  }

  /** Where reading goes on behind a comment: a block comment ends with two hashes, which may overlap its
      opening ones; a line comment takes its newline along. */
  function CommentEnd(code: seq<Byte>, i: nat): (r: nat)
    ensures r > i
  {
    if i + 1 < |code| && code[i + 1] == HASH then DoubleHash(code, i + 1) + 2 else LineEnd(code, i + 1) + 1
  }

  /** The bytes written for the text from i on. */
  function Chewed(code: seq<Byte>, i: nat, quoted: bool): (r: seq<Byte>)
    decreases |code| - i
  {
    if i >= |code| then []
    else if Escapes(code, i) then Escaped(code[i + 1]) + Chewed(code, i + 2, quoted)
    else if Comments(code, i, quoted) then Chewed(code, CommentEnd(code, i), quoted)
    else [code[i]] + Chewed(code, i + 1, quoted != (code[i] == QUOTE))
  }

  // ----- in place -----

  method SkipLine(code: seq<Byte>, start: nat) returns (i: nat)
    requires start < |code|
    ensures i >= start && (if LineEnd(code, start + 1) < |code| then i == LineEnd(code, start + 1) else i >= |code|)
  {
    i := start;
    while true
      invariant start <= i <= |code|
      invariant LineEnd(code, start + 1) == if i < |code| then LineEnd(code, i + 1) else i
      decreases |code| - i
    {
      var was := i;
      i := i + 1;
      if was >= |code| {
        break;
      }
      if i < |code| && code[i] == NEWLINE {
        break;
      }
    }
  }

  method SkipBlock(code: seq<Byte>, start: nat) returns (i: nat)
    requires start < |code|
    ensures i >= start && (if DoubleHash(code, start + 1) < |code| then i == DoubleHash(code, start + 1) + 1
                           else i >= |code|)
  {
    i := start;
    while true
      invariant start <= i <= |code|
      invariant DoubleHash(code, start + 1) == if i < |code| then DoubleHash(code, i + 1) else i
      decreases |code| - i
    {
      var was := i;
      i := i + 1;
      if was >= |code| {
        break;
      }
      if i + 1 < |code| && code[i] == HASH && code[i + 1] == HASH {
        i := i + 1;
        break;
      }
    }
  }

  lemma {:induction false} PastEnd(code: seq<Byte>, i: nat, quoted: bool)
    requires i >= |code|
    ensures Chewed(code, i, quoted) == []
  {
  }

  lemma ChewedUnfold(code: seq<Byte>, i: nat, quoted: bool)
    requires i < |code|
    ensures Chewed(code, i, quoted) ==
            if Escapes(code, i) then Escaped(code[i + 1]) + Chewed(code, i + 2, quoted)
            else if Comments(code, i, quoted) then Chewed(code, CommentEnd(code, i), quoted)
            else [code[i]] + Chewed(code, i + 1, quoted != (code[i] == QUOTE))
  {
  }

  method Put(a: array<Byte>, n: nat, b: Byte) returns (m: nat)
    requires n < a.Length
    modifies a
    ensures m == n + 1 && a[..m] == old(a[..n]) + [b]
  {
    a[n] := b;
    m := n + 1;
  }

  method PutEscaped(a: array<Byte>, n: nat, b: Byte) returns (m: nat)
    requires n < a.Length
    modifies a
    ensures n <= m <= n + 1 <= a.Length && a[..m] == old(a[..n]) + Escaped(b)
  {
    m := n;
    if b == LETTER_N {
      m := Put(a, n, NEWLINE);
    } else if b == LETTER_T {
      m := Put(a, n, TAB);
    }
  }

  /** Where the reader stands after the comment that starts at i, counting the step of its loop. */
  method SkipComment(code: seq<Byte>, start: nat) returns (i: nat)
    requires start < |code|
    ensures i > start && (i == CommentEnd(code, start) || (i >= |code| && CommentEnd(code, start) >= |code|))
  {
    if start < |code| - 1 && code[start + 1] == HASH {
      i := SkipBlock(code, start);
    } else {
      i := SkipLine(code, start);
    }
    i := i + 1;
  }

  /** larva_chew: the output buffer is never longer than the input. */
  method LarvaChew(code: seq<Byte>) returns (newCode: array<Byte>, newLen: nat)
    ensures fresh(newCode) && newCode.Length == |code| + 1 && newLen <= |code|
    ensures newCode[..newLen] == Chewed(code, 0, false)
  {
    hide Chewed, Escaped, CommentEnd;
    newCode := new Byte[|code| + 1];
    newLen := 0;
    var quotesOn: bool, i: nat := false, 0;
    ghost var whole := Chewed(code, 0, false);
    assert newCode[..0] + whole == whole;
    while i < |code|
      invariant newLen <= |code| && (i < |code| ==> newLen <= i)
      invariant newCode[..newLen] + Chewed(code, i, quotesOn) == whole
      decreases |code| - i
    {
      ChewedUnfold(code, i, quotesOn);
      ghost var before := newCode[..newLen];
      if code[i] == QUOTE {
        quotesOn := !quotesOn;
      }
      if i < |code| - 1 && code[i] == BACKSLASH {
        ghost var e, rest := Escaped(code[i + 1]), Chewed(code, i + 2, quotesOn);
        assert before + (e + rest) == before + e + rest;
        newLen := PutEscaped(newCode, newLen, code[i + 1]);
        i := i + 2;
      } else if code[i] == HASH && !quotesOn {
        ghost var end := CommentEnd(code, i);
        i := SkipComment(code, i);
        if i >= |code| {
          PastEnd(code, end, quotesOn);
          PastEnd(code, i, quotesOn);
        }
      } else {
        ghost var rest := Chewed(code, i + 1, quotesOn);
        assert before + ([code[i]] + rest) == before + [code[i]] + rest;
        newLen := Put(newCode, newLen, code[i]);
        i := i + 1;
      }
    }
    PastEnd(code, i, quotesOn);
    assert newCode[..newLen] + [] == newCode[..newLen];
  }

  // ----- the output is clean -----

  /** No hash outside quotes, and no backslash but perhaps as the last byte. */
  predicate Clean(t: seq<Byte>, quoted: bool) {
    t == [] || (!(t[0] == HASH && !quoted) && !(t[0] == BACKSLASH && |t| > 1) &&
                Clean(t[1..], quoted != (t[0] == QUOTE)))
  }

  lemma CleanCons(b: Byte, t: seq<Byte>, quoted: bool)
    requires Clean(t, quoted != (b == QUOTE)) && !(b == HASH && !quoted) && (b == BACKSLASH ==> t == [])
    ensures Clean([b] + t, quoted)
  {
    assert ([b] + t)[1..] == t;
  }

  lemma {:induction false} ChewedIsClean(code: seq<Byte>, i: nat, quoted: bool)
    ensures Clean(Chewed(code, i, quoted), quoted)
    ensures |Chewed(code, i, quoted)| <= if i < |code| then |code| - i else 0
    decreases |code| - i
  {
    hide Clean, CommentEnd, Chewed;
    if i >= |code| {
      PastEnd(code, i, quoted);
      NoneClean(quoted);
    } else {
      ChewedUnfold(code, i, quoted);
      if Escapes(code, i) {
        ChewedIsClean(code, i + 2, quoted);
        var e, rest := Escaped(code[i + 1]), Chewed(code, i + 2, quoted);
        if e == [] { assert e + rest == rest; } else { CleanCons(e[0], rest, quoted); }
      } else if Comments(code, i, quoted) {
        ChewedIsClean(code, CommentEnd(code, i), quoted);
      } else {
        var on := quoted != (code[i] == QUOTE);
        ChewedIsClean(code, i + 1, on);
        if i == |code| - 1 { PastEnd(code, i + 1, on); }
        CleanCons(code[i], Chewed(code, i + 1, on), quoted);
      }
    }
  }

  lemma NoneClean(quoted: bool)
    ensures Clean([], quoted)
  {
  }

  lemma {:induction false} CleanIsKept(t: seq<Byte>, i: nat, quoted: bool)
    requires i <= |t| && Clean(t[i..], quoted)
    ensures Chewed(t, i, quoted) == t[i..]
    decreases |t| - i
  {
    if i < |t| {
      assert t[i..][1..] == t[i + 1..];
      CleanIsKept(t, i + 1, quoted != (t[i] == QUOTE));
    }
  }

  /** Clean texts are exactly those that chewing leaves alone. */
  lemma CleanIffFixed(t: seq<Byte>)
    ensures Clean(t, false) <==> Chewed(t, 0, false) == t
  {
    assert t[0..] == t;
    ChewedIsClean(t, 0, false);
    if Clean(t, false) {
      CleanIsKept(t, 0, false);
    }
  }

  /** Chewing twice is chewing once. */
  lemma ChewIdempotent(code: seq<Byte>)
    ensures Chewed(Chewed(code, 0, false), 0, false) == Chewed(code, 0, false)
  {
    ChewedIsClean(code, 0, false);
    CleanIffFixed(Chewed(code, 0, false));
  }

  // ----- the quote state of what is kept -----

  /** For every byte written, whether the reader was inside quotes when it wrote it. */
  function Marks(code: seq<Byte>, i: nat, quoted: bool): (r: seq<bool>)
    decreases |code| - i
  {
    if i >= |code| then []
    else if Escapes(code, i) then (if Escaped(code[i + 1]) == [] then [] else [quoted]) + Marks(code, i + 2, quoted)
    else if Comments(code, i, quoted) then Marks(code, CommentEnd(code, i), quoted)
    else
      var on := quoted != (code[i] == QUOTE);
      [on] + Marks(code, i + 1, on)
  }

  /** The quote state behind the k-th byte of a text, counting its quotes. */
  function QuotedAt(t: seq<Byte>, quoted: bool, k: nat): (b: bool)
    requires k < |t|
  {
    var on := quoted != (t[0] == QUOTE);
    if k == 0 then on else QuotedAt(t[1..], on, k - 1)
  }

  lemma MarksUnfold(code: seq<Byte>, i: nat, quoted: bool)
    requires i < |code|
    ensures Marks(code, i, quoted) ==
            if Escapes(code, i) then (if Escaped(code[i + 1]) == [] then [] else [quoted]) + Marks(code, i + 2, quoted)
            else if Comments(code, i, quoted) then Marks(code, CommentEnd(code, i), quoted)
            else [quoted != (code[i] == QUOTE)] + Marks(code, i + 1, quoted != (code[i] == QUOTE))
  {
  }

  lemma QuotedCons(b: Byte, t: seq<Byte>, quoted: bool, k: nat)
    requires k <= |t|
    ensures var on := quoted != (b == QUOTE);
            QuotedAt([b] + t, quoted, k) == if k == 0 then on else QuotedAt(t, on, k - 1)
  {
    assert ([b] + t)[1..] == t;
  }

  /** Whoever reads the output alone sees every byte in the same quote state as the chewer did. */
  lemma {:induction false} QuotesAreKept(code: seq<Byte>, i: nat, quoted: bool, k: nat)
    ensures |Marks(code, i, quoted)| == |Chewed(code, i, quoted)|
    ensures k < |Chewed(code, i, quoted)| ==> QuotedAt(Chewed(code, i, quoted), quoted, k) == Marks(code, i, quoted)[k]
    decreases |code| - i
  {
    hide Marks, Chewed, QuotedAt, CommentEnd;
    if i >= |code| {
      PastEnd(code, i, quoted);
      MarksPastEnd(code, i, quoted);
    } else {
      ChewedUnfold(code, i, quoted);
      MarksUnfold(code, i, quoted);
      if Escapes(code, i) {
        var e, rest := Escaped(code[i + 1]), Chewed(code, i + 2, quoted);
        QuotesAreKept(code, i + 2, quoted, if k == 0 || e == [] then k else k - 1);
        if e == [] { assert e + rest == rest; } else if k <= |rest| { QuotedCons(e[0], rest, quoted, k); }
      } else if Comments(code, i, quoted) {
        QuotesAreKept(code, CommentEnd(code, i), quoted, k);
      } else {
        var on := quoted != (code[i] == QUOTE);
        QuotesAreKept(code, i + 1, on, if k == 0 then 0 else k - 1);
        if k <= |Chewed(code, i + 1, on)| { QuotedCons(code[i], Chewed(code, i + 1, on), quoted, k); }
      }
    }
  }

  lemma MarksPastEnd(code: seq<Byte>, i: nat, quoted: bool)
    requires i >= |code|
    ensures Marks(code, i, quoted) == []
  {
  }

  // ----- the terminating zero -----

  /** The text ends inside a comment, or right behind a backslash that starts an escape. */
  predicate Unfinished(t: seq<Byte>, i: nat, quoted: bool)
    decreases |t| - i
  {
    if i >= |t| then false
    else if t[i] == BACKSLASH then i + 1 == |t| || Unfinished(t, i + 2, quoted)
    else if Comments(t, i, quoted) then CommentEnd(t, i) > |t| || Unfinished(t, CommentEnd(t, i), quoted)
    else Unfinished(t, i + 1, quoted != (t[i] == QUOTE))
  }

  lemma {:induction false} LineEndMore(t: seq<Byte>, i: nat)
    requires i <= |t|
    ensures i <= LineEnd(t, i) <= |t| && LineEnd(t + [0], i) == if LineEnd(t, i) < |t| then LineEnd(t, i) else |t| + 1
    decreases |t| - i
  {
    if i < |t| && t[i] != NEWLINE { LineEndMore(t, i + 1); }
  }

  lemma {:induction false} DoubleHashMore(t: seq<Byte>, i: nat)
    requires i <= |t|
    ensures i <= DoubleHash(t, i) <= |t|
    ensures DoubleHash(t + [0], i) == if DoubleHash(t, i) < |t| then DoubleHash(t, i) else |t| + 1
    ensures DoubleHash(t, i) < |t| ==> DoubleHash(t, i) + 1 < |t|
    decreases |t| - i
  {
    if i < |t| && !(t[i] == HASH && i + 1 < |t| && t[i + 1] == HASH) { DoubleHashMore(t, i + 1); }
  }

  lemma CommentEndMore(t: seq<Byte>, i: nat)
    requires i < |t|
    ensures CommentEnd(t, i) <= |t| ==> CommentEnd(t + [0], i) == CommentEnd(t, i)
    ensures CommentEnd(t, i) > |t| ==> CommentEnd(t + [0], i) > |t| + 1
  {
    LineEndMore(t, i + 1);
    DoubleHashMore(t, i + 1);
  }

  /** The zero behind an unfinished text is taken along; behind any other text it is copied. */
  lemma {:induction false} TerminatorCopied(t: seq<Byte>, i: nat, quoted: bool)
    requires i <= |t|
    ensures if Unfinished(t, i, quoted) then Chewed(t + [0], i, quoted) <= Chewed(t, i, quoted)
            else Chewed(t + [0], i, quoted) == Chewed(t, i, quoted) + [0]
    decreases |t| - i
  {
    hide Unfinished, Chewed, CommentEnd;
    var c := t + [0];
    ChewedUnfold(c, i, quoted);
    if i == |t| {
      PastEnd(c, i + 1, quoted);
      PastEnd(t, i, quoted);
      UnfinishedUnfold(t, i, quoted);
    } else {
      ChewedUnfold(t, i, quoted);
      UnfinishedUnfold(t, i, quoted);
      assert c[i] == t[i];
      if t[i] == BACKSLASH {
        if i + 1 == |t| {
          PastEnd(c, i + 2, quoted);
          assert Escaped(0) + [] == [];
        } else {
          assert c[i + 1] == t[i + 1];
          TerminatorCopied(t, i + 2, quoted);
          var e := Escaped(t[i + 1]);
          assert e + (Chewed(t, i + 2, quoted) + [0]) == e + Chewed(t, i + 2, quoted) + [0];
        }
      } else if Comments(t, i, quoted) {
        CommentEndMore(t, i);
        if CommentEnd(t, i) > |t| {
          PastEnd(c, CommentEnd(c, i), quoted);
        } else {
          TerminatorCopied(t, CommentEnd(t, i), quoted);
        }
      } else {
        var on := quoted != (t[i] == QUOTE);
        TerminatorCopied(t, i + 1, on);
        assert [t[i]] + (Chewed(t, i + 1, on) + [0]) == [t[i]] + Chewed(t, i + 1, on) + [0];
      }
    }
  }

  lemma UnfinishedUnfold(t: seq<Byte>, i: nat, quoted: bool)
    ensures Unfinished(t, i, quoted) ==
            (i < |t| &&
             if t[i] == BACKSLASH then i + 1 == |t| || Unfinished(t, i + 2, quoted)
             else if Comments(t, i, quoted) then CommentEnd(t, i) > |t| || Unfinished(t, CommentEnd(t, i), quoted)
             else Unfinished(t, i + 1, quoted != (t[i] == QUOTE)))
  {
  }

  /** The terminating zero of a text survives chewing exactly if the text does not end inside a comment or
      behind an escaping backslash; then everything in front of it is what chewing makes of the text alone. */
  lemma TerminatorSurvives(t: seq<Byte>)
    ensures Chewed(t + [0], 0, false) == Chewed(t, 0, false) + [0] <==> !Unfinished(t, 0, false)
    ensures 0 !in t ==> (0 in Chewed(t + [0], 0, false) <==> !Unfinished(t, 0, false))
  {
    hide Chewed, Unfinished;
    TerminatorCopied(t, 0, false);
    if 0 !in t { NoZeroChewed(t, 0, false); }
  }

  lemma {:induction false} NoZeroChewed(t: seq<Byte>, i: nat, quoted: bool)
    requires 0 !in t
    ensures 0 !in Chewed(t, i, quoted)
    decreases |t| - i
  {
    hide Chewed, CommentEnd;
    if i >= |t| {
      PastEnd(t, i, quoted);
    } else {
      ChewedUnfold(t, i, quoted);
      if Escapes(t, i) {
        NoZeroChewed(t, i + 2, quoted);
      } else if Comments(t, i, quoted) {
        NoZeroChewed(t, CommentEnd(t, i), quoted);
      } else {
        NoZeroChewed(t, i + 1, quoted != (t[i] == QUOTE));
      }
    }
  }
}
