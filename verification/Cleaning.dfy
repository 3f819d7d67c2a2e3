/** What a source text says: comments say nothing, escapes say one character or none, the rest says itself. */
module Cleaning {
  import opened Bytes
  import opened Grammar
  import opened Digest
  import opened Chew

  /** The pieces of a text in front of its cleaning. Line comments end with a newline; block comments end with
      two hashes, the first of which may be the second one of the opening. */
  datatype Part = Letter(b: Byte) | Newline | Tab | Dropped(b: Byte) | Line(body: seq<Byte>) | Block(body: seq<Byte>)

  /** No two hashes in a row. */
  predicate Single(t: seq<Byte>) {
    forall i :: 0 <= i < |t| - 1 ==> !(t[i] == 35 && t[i + 1] == 35)
  }

  function Source(p: Part): (t: seq<Byte>)
    ensures t != []
  {
    match p
    case Letter(b) => [b]
    case Newline => [92, 110]
    case Tab => [92, 116]
    case Dropped(b) => [92, b]
    case Line(body) => [35] + body + [10]
    case Block(body) => [35] + body + [35, 35]
  }

  /** Comments stand outside quotes; a hash outside quotes starts one. */
  predicate Fits(p: Part, quoted: bool) {
    match p
    case Letter(b) => b != 92 && (b == 35 ==> quoted)
    case Newline => true
    case Tab => true
    case Dropped(b) => b != 110 && b != 116
    case Line(body) => !quoted && 10 !in body && (body != [] ==> body[0] != 35)
    case Block(body) => !quoted && Single(body + [35]) && (body != [] ==> body[0] == 35)
  }

  function Says(p: Part): (t: seq<Byte>) {
    match p
    case Letter(b) => [b]
    case Newline => [10]
    case Tab => [9]
    case _ => []
  }

  /** A quote mark of the text itself opens or closes quotes. */
  function Then(p: Part, quoted: bool): (q: bool) {
    quoted != (p == Letter(39))
  }

  function SourceAll(ps: seq<Part>): (t: seq<Byte>) {
    if ps == [] then [] else Source(ps[0]) + SourceAll(ps[1..])
  }

  predicate FitsAll(ps: seq<Part>, quoted: bool) {
    ps == [] || (Fits(ps[0], quoted) && FitsAll(ps[1..], Then(ps[0], quoted)))
  }

  function SaysAll(ps: seq<Part>): (t: seq<Byte>) {
    if ps == [] then [] else Says(ps[0]) + SaysAll(ps[1..])
  }

  /** Whether a text ends inside quotes. */
  predicate Quoting(t: seq<Byte>, quoted: bool) {
    if t == [] then quoted else Quoting(t[1..], quoted != (t[0] == 39))
  }

  // ----- one piece -----

  lemma {:induction false} LineEndAt(code: seq<Byte>, i: nat, body: seq<Byte>)
    requires At(code, i, body + [10]) && 10 !in body
    ensures LineEnd(code, i) == i + |body|
    decreases |body|
  {
    assert code[i] == (body + [10])[0];
    if body != [] {
      AtSplit(code, i, [body[0]], body[1..] + [10]) by { assert body + [10] == [body[0]] + (body[1..] + [10]); }
      LineEndAt(code, i + 1, body[1..]);
    }
  }

  lemma {:induction false} DoubleHashAt(code: seq<Byte>, i: nat, body: seq<Byte>)
    requires At(code, i, body + [35, 35]) && Single(body + [35])
    ensures DoubleHash(code, i) == i + |body|
    decreases |body|
  {
    var t := body + [35, 35];
    assert code[i] == t[0] && code[i + 1] == t[1];
    if body != [] {
      var u := body + [35];
      assert u[0] == t[0] && u[1] == t[1];
      AtSplit(code, i, [body[0]], body[1..] + [35, 35]) by { assert t == [body[0]] + (body[1..] + [35, 35]); }
      assert u[1..] == body[1..] + [35];
      assert Single(u[1..]) by { forall k | 0 <= k < |u[1..]| - 1 ensures !(u[1..][k] == 35 && u[1..][k + 1] == 35) {
        assert u[1..][k] == u[k + 1];
      } }
      DoubleHashAt(code, i + 1, body[1..]);
    }
  }

  lemma LineRead(code: seq<Byte>, i: nat, body: seq<Byte>)
    requires At(code, i, Source(Line(body))) && Fits(Line(body), false)
    ensures Chewed(code, i, false) == Chewed(code, i + |body| + 2, false)
  {
    hide Chewed, LineEnd, DoubleHash, Single;
    AtSplit(code, i, [35], body + [10]) by { assert Source(Line(body)) == [35] + (body + [10]); }
    LineEndAt(code, i + 1, body);
    assert code[i] == Source(Line(body))[0] && code[i + 1] == (body + [10])[0];
    ChewedUnfold(code, i, false);
  }

  lemma BlockRead(code: seq<Byte>, i: nat, body: seq<Byte>)
    requires At(code, i, Source(Block(body))) && Fits(Block(body), false)
    ensures Chewed(code, i, false) == Chewed(code, i + |body| + 3, false)
  {
    hide Chewed, LineEnd, DoubleHash, Single;
    AtSplit(code, i, [35], body + [35, 35]) by { assert Source(Block(body)) == [35] + (body + [35, 35]); }
    DoubleHashAt(code, i + 1, body);
    assert code[i] == Source(Block(body))[0] && code[i + 1] == (body + [35, 35])[0];
    ChewedUnfold(code, i, false);
  }

  /** Cleaning writes what a piece says and goes on behind it. */
  lemma PartRead(code: seq<Byte>, i: nat, p: Part, quoted: bool)
    requires At(code, i, Source(p)) && Fits(p, quoted)
    ensures Chewed(code, i, quoted) == Says(p) + Chewed(code, i + |Source(p)|, Then(p, quoted))
  {
    hide Chewed, At, Single;
    match p
    case Line(body) => LineRead(code, i, body);
    case Block(body) => BlockRead(code, i, body);
    case Letter(b) => LetterRead(code, i, b, quoted);
    case _ => EscapeRead(code, i, p, quoted);
  }

  lemma LetterRead(code: seq<Byte>, i: nat, b: Byte, quoted: bool)
    requires At(code, i, Source(Letter(b))) && Fits(Letter(b), quoted)
    ensures Chewed(code, i, quoted) == [b] + Chewed(code, i + 1, Then(Letter(b), quoted))
  {
    assert code[i] == Source(Letter(b))[0];
    ChewedUnfold(code, i, quoted);
  }

  lemma EscapeRead(code: seq<Byte>, i: nat, p: Part, quoted: bool)
    requires At(code, i, Source(p)) && Fits(p, quoted) && (p.Newline? || p.Tab? || p.Dropped?)
    ensures Chewed(code, i, quoted) == Says(p) + Chewed(code, i + 2, quoted)
  {
    assert code[i] == Source(p)[0] && code[i + 1] == Source(p)[1];
    ChewedUnfold(code, i, quoted);
  }

  // ----- whole texts -----

  /** Reading on behind the pieces: what they say, and then whatever follows, in the quote state they leave. */
  lemma {:induction false} PartsRead(code: seq<Byte>, i: nat, ps: seq<Part>, quoted: bool)
    requires At(code, i, SourceAll(ps)) && FitsAll(ps, quoted)
    ensures Chewed(code, i, quoted) == SaysAll(ps) + Chewed(code, i + |SourceAll(ps)|, Quoting(SaysAll(ps), quoted))
    decreases |ps|
  {
    hide Chewed, Source, Says, Fits, Quoting, Then;
    if ps == [] {
      QuotingNone(quoted);
    } else {
      var p, rest, on := ps[0], ps[1..], Then(ps[0], quoted);
      AtSplit(code, i, Source(p), SourceAll(rest));
      PartRead(code, i, p, quoted);
      PartsRead(code, i + |Source(p)|, rest, on);
      QuotingPart(p, SaysAll(rest), quoted);
      var end := Chewed(code, i + |SourceAll(ps)|, Quoting(SaysAll(ps), quoted));
      assert Says(p) + (SaysAll(rest) + end) == Says(p) + SaysAll(rest) + end;
    }
  }

  lemma QuotingNone(quoted: bool)
    ensures Quoting([], quoted) == quoted
  {
  }

  lemma QuotingPart(p: Part, t: seq<Byte>, quoted: bool)
    ensures Quoting(Says(p) + t, quoted) == Quoting(t, Then(p, quoted))
  {
    match p
    case Line(_) => assert Says(p) + t == t;
    case Block(_) => assert Says(p) + t == t;
    case Dropped(_) => assert Says(p) + t == t;
    case _ => assert (Says(p) + t)[1..] == t;
  }

  /** Cleaning a text made of pieces leaves what they say. */
  lemma PartsSay(ps: seq<Part>)
    requires FitsAll(ps, false)
    ensures Chewed(SourceAll(ps), 0, false) == SaysAll(ps)
  {
    hide Chewed, SourceAll, SaysAll, FitsAll, Quoting;
    var t := SourceAll(ps);
    PartsRead(t, 0, ps, false);
    PastEnd(t, |t|, Quoting(SaysAll(ps), false));
    assert SaysAll(ps) + [] == SaysAll(ps);
  }

  /** Every text is made of pieces, unless it ends inside a comment or behind an escaping backslash. */
  lemma {:induction false} MadeOfParts(t: seq<Byte>, i: nat, quoted: bool) returns (ps: seq<Part>)
    requires i <= |t| && !Unfinished(t, i, quoted)
    ensures FitsAll(ps, quoted) && SourceAll(ps) == t[i..]
    decreases |t| - i
  {
    hide Unfinished, CommentEnd, Source, Fits, Then;
    UnfinishedUnfold(t, i, quoted);
    if i == |t| {
      ps := [];
    } else {
      var p, n := FirstPart(t, i, quoted);
      var rest := MadeOfParts(t, i + n, Then(p, quoted));
      ps := [p] + rest;
      assert t[i..] == t[i..i + n] + t[i + n..];
    }
  }

  lemma FirstPart(t: seq<Byte>, i: nat, quoted: bool) returns (p: Part, n: nat)
    requires i < |t| && !Unfinished(t, i, quoted)
    ensures n > 0 && i + n <= |t| && Fits(p, quoted) && Source(p) == t[i..i + n]
    ensures !Unfinished(t, i + n, Then(p, quoted))
  {
    hide Unfinished;
    UnfinishedUnfold(t, i, quoted);
    if t[i] == BACKSLASH {
      n := 2;
      p := if t[i + 1] == 110 then Newline else if t[i + 1] == 116 then Tab else Dropped(t[i + 1]);
    } else if Comments(t, i, quoted) {
      p, n := FirstComment(t, i);
    } else {
      p, n := Letter(t[i]), 1;
    }
  }

  lemma FirstComment(t: seq<Byte>, i: nat) returns (p: Part, n: nat)
    requires i < |t| && t[i] == 35 && CommentEnd(t, i) <= |t|
    ensures p.Line? || p.Block?
    ensures i + n == CommentEnd(t, i) && Fits(p, false) && Source(p) == t[i..i + n]
  {
    hide Fits, Source, Single;
    n := CommentEnd(t, i) - i;
    if i + 1 < |t| && t[i + 1] == HASH {
      p := Block(t[i + 1..i + n - 2]);
      FirstBlock(t, i, n);
    } else {
      p := Line(t[i + 1..i + n - 1]);
      FirstLine(t, i, n);
    }
  }

  lemma FirstBlock(t: seq<Byte>, i: nat, n: nat)
    requires i + 1 < |t| && t[i] == 35 && t[i + 1] == 35 && i + n == DoubleHash(t, i + 1) + 2 <= |t|
    ensures n >= 3 && var p := Block(t[i + 1..i + n - 2]); Fits(p, false) && Source(p) == t[i..i + n]
  {
    var e := DoubleHash(t, i + 1);
    DoubleHashFirst(t, i + 1);
    var body := t[i + 1..e];
    SingleBefore(t, i + 1, e);
    hide Single;
    assert t[i..i + n] == [t[i]] + body + [t[e], t[e + 1]];
  }

  lemma SingleBefore(t: seq<Byte>, a: nat, e: nat)
    requires a <= e < |t| && t[e] == 35 && forall k :: a <= k < e ==> !(t[k] == 35 && t[k + 1] == 35)
    ensures Single(t[a..e] + [35])
  {
    var u := t[a..e + 1];
    assert t[a..e] + [35] == u;
    assert forall k :: 0 <= k < |u| ==> u[k] == t[a + k];
  }

  lemma FirstLine(t: seq<Byte>, i: nat, n: nat)
    requires i < |t| && t[i] == 35 && (i + 1 < |t| ==> t[i + 1] != 35) && i + n == LineEnd(t, i + 1) + 1 <= |t|
    ensures n >= 2 && var p := Line(t[i + 1..i + n - 1]); Fits(p, false) && Source(p) == t[i..i + n]
  {
    var e := LineEnd(t, i + 1);
    LineEndFirst(t, i + 1);
    var body := t[i + 1..e];
    assert body != [] ==> body[0] == t[i + 1];
    assert t[i..i + n] == [t[i]] + body + [t[e]];
  }

  lemma {:induction false} LineEndFirst(t: seq<Byte>, i: nat)
    requires i <= |t|
    ensures LineEnd(t, i) < |t| ==> t[LineEnd(t, i)] == 10
    ensures LineEnd(t, i) <= |t| && forall k :: i <= k < LineEnd(t, i) ==> t[k] != 10
    decreases |t| - i
  {
    if i < |t| && t[i] != 10 { LineEndFirst(t, i + 1); }
  }

  lemma {:induction false} DoubleHashFirst(t: seq<Byte>, i: nat)
    requires i <= |t|
    ensures var e := DoubleHash(t, i);
            e <= |t| && (e < |t| ==> e + 1 < |t| && t[e] == 35 && t[e + 1] == 35) &&
            forall k :: i <= k < e && k + 1 < |t| ==> !(t[k] == 35 && t[k + 1] == 35)
    decreases |t| - i
  {
    if i < |t| && !(t[i] == 35 && i + 1 < |t| && t[i + 1] == 35) { DoubleHashFirst(t, i + 1); }
  }

  /** Cleaning a text that does not end inside a comment or an escape makes of it exactly what its pieces say. */
  lemma CleanedIffSaid(t: seq<Byte>, u: seq<Byte>)
    requires !Unfinished(t, 0, false)
    ensures Chewed(t, 0, false) == u <==> exists ps :: FitsAll(ps, false) && SourceAll(ps) == t && SaysAll(ps) == u
  {
    hide Chewed, Unfinished, FitsAll, SourceAll, SaysAll;
    var ps := MadeOfParts(t, 0, false);
    assert t[0..] == t;
    PartsSay(ps);
    if qs :| FitsAll(qs, false) && SourceAll(qs) == t && SaysAll(qs) == u {
      PartsSay(qs);
    }
  }

  // ----- comments -----

  lemma {:induction false} LineEndBehind(a: seq<Byte>, t: seq<Byte>, i: nat)
    requires i <= |t|
    ensures LineEnd(a + t, |a| + i) == |a| + LineEnd(t, i)
    decreases |t| - i
  {
    if i < |t| && t[i] != NEWLINE { LineEndBehind(a, t, i + 1); }
  }

  lemma {:induction false} DoubleHashBehind(a: seq<Byte>, t: seq<Byte>, i: nat)
    requires i <= |t|
    ensures DoubleHash(a + t, |a| + i) == |a| + DoubleHash(t, i)
    decreases |t| - i
  {
    if i < |t| && !(t[i] == HASH && i + 1 < |t| && t[i + 1] == HASH) { DoubleHashBehind(a, t, i + 1); }
  }

  lemma CommentEndBehind(a: seq<Byte>, t: seq<Byte>, i: nat)
    requires i < |t|
    ensures CommentEnd(a + t, |a| + i) == |a| + CommentEnd(t, i)
  {
    DoubleHashBehind(a, t, i + 1);
    LineEndBehind(a, t, i + 1);
  }

  lemma KindsBehind(a: seq<Byte>, t: seq<Byte>, i: nat, quoted: bool)
    requires i < |t|
    ensures (a + t)[|a| + i] == t[i] && (Escapes(t, i) ==> i + 1 < |t| && (a + t)[|a| + i + 1] == t[i + 1])
    ensures Escapes(a + t, |a| + i) == Escapes(t, i) && Comments(a + t, |a| + i, quoted) == Comments(t, i, quoted)
  {
  }

  /** Reading from a place on depends on nothing in front of it but the quote state. */
  lemma {:induction false} ChewedBehind(a: seq<Byte>, t: seq<Byte>, i: nat, quoted: bool)
    ensures Chewed(a + t, |a| + i, quoted) == Chewed(t, i, quoted)
    decreases |t| - i
  {
    hide Chewed, CommentEnd, Escapes, Comments;
    if i >= |t| {
      PastEnd(a + t, |a| + i, quoted);
      PastEnd(t, i, quoted);
    } else {
      ChewedUnfold(a + t, |a| + i, quoted);
      ChewedUnfold(t, i, quoted);
      KindsBehind(a, t, i, quoted);
      if Escapes(t, i) {
        ChewedBehind(a, t, i + 2, quoted);
      } else if Comments(t, i, quoted) {
        CommentEndBehind(a, t, i);
        ChewedBehind(a, t, CommentEnd(t, i), quoted);
      } else {
        ChewedBehind(a, t, i + 1, quoted != (t[i] == QUOTE));
      }
    }
  }

  /** A text is cleaned part by part, the second part in the quote state that the first one leaves. */
  lemma ChewedConcat(a: seq<Byte>, b: seq<Byte>, quoted: bool)
    requires !Unfinished(a, 0, quoted)
    ensures Chewed(a + b, 0, quoted) == Chewed(a, 0, quoted) + Chewed(b, 0, Quoting(Chewed(a, 0, quoted), quoted))
  {
    hide Chewed, Unfinished, FitsAll, SourceAll, SaysAll, Quoting;
    var ps := MadeOfParts(a, 0, quoted);
    assert a[0..] == a;
    var said, on := SaysAll(ps), Quoting(SaysAll(ps), quoted);
    PartsRead(a, 0, ps, quoted);
    PastEnd(a, |a|, on);
    assert said + [] == said;
    PartsRead(a + b, 0, ps, quoted);
    ChewedBehind(a, b, 0, on);
  }

  /** A comment put into a text where no quotes are open takes nothing but itself away: a line from a hash to
      its newline, or everything from two hashes to the next two. */
  lemma CommentSaysNothing(a: seq<Byte>, p: Part, b: seq<Byte>)
    requires !Unfinished(a, 0, false) && !Quoting(Chewed(a, 0, false), false)
    requires (p.Line? || p.Block?) && Fits(p, false)
    ensures Chewed(a + Source(p) + b, 0, false) == Chewed(a + b, 0, false)
  {
    hide Chewed, Unfinished, Quoting, Fits, Source;
    ChewedConcat(a, b, false);
    ChewedConcat(a, Source(p) + b, false);
    assert a + Source(p) + b == a + (Source(p) + b);
    PartRead(Source(p) + b, 0, p, false);
    ChewedBehind(Source(p), b, 0, false);
    assert Chewed(Source(p) + b, 0, false) == Chewed(b, 0, false) by { CommentsAreSilent(p); }
  }

  lemma CommentsAreSilent(p: Part)
    requires p.Line? || p.Block?
    ensures Says(p) == [] && Then(p, false) == false && forall t: seq<Byte> :: Says(p) + t == t
  {
  }

  // ----- writing a text -----

  /** Inside quotes, newlines and tabs are written as escapes; everything else is written as it is. */
  function Escape(text: seq<Byte>, quoted: bool): (t: seq<Byte>) {
    if text == [] then []
    else
      (if quoted && text[0] == 10 then [92, 110] else if quoted && text[0] == 9 then [92, 116] else [text[0]]) +
      Escape(text[1..], quoted != (text[0] == 39))
  }

  lemma {:induction false} EscapedParts(text: seq<Byte>, quoted: bool) returns (ps: seq<Part>)
    requires Clean(text, quoted) && 92 !in text
    ensures FitsAll(ps, quoted) && SourceAll(ps) == Escape(text, quoted) && SaysAll(ps) == text
    decreases |text|
  {
    hide Single;
    if text == [] {
      ps := [];
    } else {
      var b := text[0];
      var p := if quoted && b == 10 then Newline else if quoted && b == 9 then Tab else Letter(b);
      var rest := EscapedParts(text[1..], quoted != (b == 39));
      assert text == [b] + text[1..];
      ps := [p] + rest;
    }
  }

  /** Whatever has no backslash, and no hash outside quotes, can be written so that cleaning gives it back. */
  lemma EscapeCleaned(text: seq<Byte>)
    requires Clean(text, false) && 92 !in text
    ensures Chewed(Escape(text, false), 0, false) == text
  {
    hide Chewed, Escape, Clean;
    var ps := EscapedParts(text, false);
    PartsSay(ps);
  }
}
