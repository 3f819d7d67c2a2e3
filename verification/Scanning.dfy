/** Finding the end of an expression inside a source text, and why rendered expressions do not end early. */
module Scanning {
  import opened Bytes
  import opened Values
  import opened Syntax
  import opened Grammar
  import opened Digest
  import opened Rendering

  /** Walks over a piece of text; None if the scan stops inside it. The scan of parse() knows quotes,
      that of a condition does not and stops at the parenthesis that closes the outermost one. */
  function Track(aware: bool, t: seq<Byte>, quoted: bool, level: nat): (r: Option<(bool, nat)>) {
    if t == [] then Some((quoted, level))
    else if t[0] == NUL then None
    else if aware && quoted then Track(aware, t[1..], t[0] != QUOTE, level)
    else if aware && (t[0] == NEWLINE || (t[0] == COMMA && level == 0)) then None
    else if t[0] == CLOSE && level <= (if aware then 0 else 1) then None
    else
      Track(aware, t[1..], aware && t[0] == QUOTE,
            if t[0] == OPEN then level + 1 else if t[0] == CLOSE then level - 1 else level)
  }

  lemma {:induction false} TrackConcat(aware: bool, a: seq<Byte>, b: seq<Byte>, quoted: bool, level: nat)
    ensures Track(aware, a + b, quoted, level) ==
            match Track(aware, a, quoted, level) case None => None case Some(st) => Track(aware, b, st.0, st.1)
    decreases |a|
  {
    if a == [] {
      assert a + b == b;
    } else {
      assert (a + b)[0] == a[0] && (a + b)[1..] == a[1..] + b;
      if aware && quoted {
        TrackConcat(aware, a[1..], b, a[0] != QUOTE, level);
      } else if !(a[0] == CLOSE && level <= (if aware then 0 else 1)) {
        TrackConcat(aware, a[1..], b, aware && a[0] == QUOTE,
                    if a[0] == OPEN then level + 1 else if a[0] == CLOSE then level - 1 else level);
      }
    }
  }

  lemma {:induction false} ExprEndTracks(c: Input, pos: nat, t: seq<Byte>, quoted: bool, level: nat)
    requires At(c, pos, t) && Track(true, t, quoted, level).Some?
    ensures var st := Track(true, t, quoted, level).value;
            ExprEnd(c, pos, quoted, level) == ExprEnd(c, pos + |t|, st.0, st.1)
    decreases |t|
  {
    if t != [] {
      AtTail(c, pos, t);
      if quoted {
        ExprEndTracks(c, pos + 1, t[1..], t[0] != QUOTE, level);
      } else {
        ExprEndTracks(c, pos + 1, t[1..], t[0] == QUOTE,
                      if t[0] == OPEN then level + 1 else if t[0] == CLOSE then level - 1 else level);
      }
    }
  }

  lemma {:induction false} CondEndTracks(c: Input, pos: nat, t: seq<Byte>, level: nat)
    requires At(c, pos, t) && pos + |t| < |c| && level >= 1 && level + |t| < 0x1_0000_0000_0000_0000
    requires Track(false, t, false, level).Some?
    ensures var st := Track(false, t, false, level).value;
            st.1 >= 1 && CondEnd(c, pos, level) == CondEnd(c, pos + |t|, st.1)
    decreases |t|
  {
    if t != [] {
      AtTail(c, pos, t);
      CondEndTracks(c, pos + 1, t[1..], if t[0] == OPEN then level + 1 else if t[0] == CLOSE then level - 1 else level);
    }
  }

  /** Nothing but blanks in front of the first parenthesis. */
  lemma {:induction false} CondEndBlank(c: Input, pos: nat, gap: seq<Byte>)
    requires At(c, pos, gap) && pos + |gap| < |c| && Blank(gap)
    ensures CondEnd(c, pos, 0) == CondEnd(c, pos + |gap|, 0)
    decreases |gap|
  {
    if gap != [] {
      AtTail(c, pos, gap);
      assert IsSpace(gap[0]) by { assert gap[0] in gap; }
      CondEndBlank(c, pos + 1, gap[1..]);
    }
  }

  lemma AtTail(c: seq<Byte>, pos: nat, t: seq<Byte>)
    requires t != [] && At(c, pos, t)
    ensures c[pos] == t[0] && At(c, pos + 1, t[1..])
  {
    assert [t[0]] + t[1..] == t;
    AtSplit(c, pos, [t[0]], t[1..]);
  }

  // ----- pieces of rendered text -----

  /** A piece that both scans pass without changing level. */
  ghost predicate Passes(aware: bool, t: seq<Byte>, level: nat) {
    Track(aware, t, false, level) == Some((false, level))
  }

  predicate PlainChar(b: Byte) {
    b != NUL && b != NEWLINE && b != COMMA && b != OPEN && b != CLOSE && b != QUOTE
  }

  predicate PlainText(t: seq<Byte>) {
    forall b :: b in t ==> PlainChar(b)
  }

  lemma {:induction false} PlainPasses(aware: bool, t: seq<Byte>, level: nat)
    requires PlainText(t)
    ensures Passes(aware, t, level)
    decreases |t|
  {
    if t != [] {
      assert PlainChar(t[0]);
      PlainPasses(aware, t[1..], level);
    }
  }

  lemma PassesConcat(aware: bool, a: seq<Byte>, b: seq<Byte>, level: nat)
    requires Passes(aware, a, level) && Passes(aware, b, level)
    ensures Passes(aware, a + b, level)
  {
    hide Track;
    TrackConcat(aware, a, b, false, level);
  }

  lemma PassesInside(aware: bool, t: seq<Byte>, level: nat)
    requires Passes(aware, t, level + 1) && (!aware ==> level >= 1)
    ensures Passes(aware, [OPEN] + t + [CLOSE], level)
  {
    TrackConcat(aware, [OPEN] + t, [CLOSE], false, level);
    TrackConcat(aware, [OPEN], t, false, level);
    assert [OPEN][1..] == [] && [CLOSE][1..] == [];
    assert Track(aware, [OPEN], false, level) == Some((false, level + 1));
    assert Track(aware, [CLOSE], false, level + 1) == Some((false, level));
  }

  predicate NoParens(t: seq<Byte>) {
    forall b :: b in t ==> b != OPEN && b != CLOSE
  }

  lemma {:induction false} InQuotes(aware: bool, t: seq<Byte>, level: nat)
    requires QUOTE !in t && 0 !in t && (!aware ==> NoParens(t))
    ensures Track(aware, t, aware, level) == Some((aware, level))
    decreases |t|
  {
    if t != [] {
      assert t[0] in t && forall b :: b in t[1..] ==> b in t;
      InQuotes(aware, t[1..], level);
    }
  }

  lemma QuotedPasses(aware: bool, t: seq<Byte>, level: nat)
    requires QUOTE !in t && 0 !in t && (!aware ==> NoParens(t))
    ensures Passes(aware, [QUOTE] + t + [QUOTE], level)
  {
    TrackConcat(aware, [QUOTE] + t, [QUOTE], false, level);
    TrackConcat(aware, [QUOTE], t, false, level);
    assert [QUOTE][1..] == [];
    assert Track(aware, [QUOTE], false, level) == Some((aware, level));
    assert Track(aware, [QUOTE], aware, level) == Some((false, level));
    InQuotes(aware, t, level);
  }

  // ----- numbers -----

  predicate NumberChar(b: Byte) {
    IsDigit(b) || IsSign(b) || b == DOT || IsExponent(b)
  }

  lemma {:induction false} DigitsChars(s: Input, pos: nat, k: nat)
    requires pos <= k < |s| && k < Digits(s, pos)
    ensures IsDigit(s[k])
    decreases |s| - pos
  {
    if k != pos { DigitsChars(s, pos + 1, k); }
  }

  lemma NumberChars(t: seq<Byte>, k: nat)
    requires IsNumber(t) && k < |t|
    ensures NumberChar(t[k])
  {
    hide Digits;
    var s: Input := t + [0];
    assert s[k] == t[k];
    var a := Optional(s, 0, IsSign(s[0]));
    var p1 := Digits(s, a);
    var b := Optional(s, p1, s[p1] == DOT);
    var p2 := Digits(s, b);
    var d := Exponent(s, p2);
    if a <= k < p1 { DigitsChars(s, a, k); }
    else if b <= k < p2 { DigitsChars(s, b, k); }
    else if d <= k { DigitsChars(s, d, k); }
  }

  // ----- rendered trees -----

  predicate Inline(ws: seq<Byte>) {
    Blank(ws) && NEWLINE !in ws
  }

  /** The scan of a condition takes parentheses inside quotes for its own. */
  predicate Scannable(aware: bool, e: Expr)
    decreases e, 1
  {
    match e
    case Quoted(t) => aware || NoParens(t)
    case Bin(_, l, r) => Scannable(aware, l) && Scannable(aware, r)
    case Assign(l, r) => Scannable(aware, l) && Scannable(aware, r)
    case Minus(a) => Scannable(aware, a)
    case Bump(_, a) => Scannable(aware, a)
    case Not(a) => Scannable(aware, a)
    case Call(_, args) => ScannableAll(aware, args)
    case Foreign(_, _, args) => ScannableAll(aware, args)
    case Print(a) => Scannable(aware, a)
    case _ => true
  }

  predicate ScannableAll(aware: bool, args: seq<Expr>)
    decreases args, 0
  {
    args == [] || (Scannable(aware, args[0]) && ScannableAll(aware, args[1..]))
  }

  lemma {:induction false} AwareScans(e: Expr)
    ensures Scannable(true, e)
    decreases e, 1
  {
    match e
    case Bin(_, l, r) => AwareScans(l); AwareScans(r);
    case Assign(l, r) => AwareScans(l); AwareScans(r);
    case Minus(a) => AwareScans(a);
    case Bump(_, a) => AwareScans(a);
    case Not(a) => AwareScans(a);
    case Call(_, args) => AwareScansAll(args);
    case Foreign(_, _, args) => AwareScansAll(args);
    case Print(a) => AwareScans(a);
    case _ =>
  }

  lemma {:induction false} AwareScansAll(args: seq<Expr>)
    ensures ScannableAll(true, args)
    decreases args, 0
  {
    if args != [] {
      AwareScans(args[0]);
      AwareScansAll(args[1..]);
    }
  }

  lemma {:induction false} RenderPasses(aware: bool, e: Expr, lvl: nat, ws: seq<Byte>, level: nat)
    requires Printable(e) && Inline(ws) && Scannable(aware, e) && (!aware ==> level >= 1)
    ensures Passes(aware, Render(e, lvl, ws), level)
    decreases e, 3
  {
    if Level(e) < lvl {
      EnclosedPasses(aware, e, ws, level);
    } else {
      BodyPasses(aware, e, ws, level);
    }
  }

  lemma {:induction false} EnclosedPasses(aware: bool, e: Expr, ws: seq<Byte>, level: nat)
    requires Printable(e) && Inline(ws) && Scannable(aware, e) && (!aware ==> level >= 1)
    ensures Passes(aware, Enclosed(e, ws), level)
    decreases e, 2
  {
    hide Passes, Body;
    BodyPasses(aware, e, ws, level + 1);
    PlainPasses(aware, ws, level + 1);
    PassesConcat(aware, ws, Body(e, ws), level + 1);
    PassesConcat(aware, ws + Body(e, ws), ws, level + 1);
    PassesInside(aware, ws + Body(e, ws) + ws, level);
    assert Enclosed(e, ws) == [OPEN] + (ws + Body(e, ws) + ws) + [CLOSE];
  }

  lemma SymbolPlain(op: BinOp)
    ensures PlainText(Symbol(op))
  {
  }

  lemma SandwichPasses(aware: bool, a: seq<Byte>, ws: seq<Byte>, sym: seq<Byte>, b: seq<Byte>, level: nat)
    requires Inline(ws) && PlainText(sym) && Passes(aware, a, level) && Passes(aware, b, level)
    ensures Passes(aware, a + ws + sym + ws + b, level)
  {
    hide Passes;
    PlainPasses(aware, ws, level);
    PlainPasses(aware, sym, level);
    PassesConcat(aware, a, ws, level);
    PassesConcat(aware, a + ws, sym, level);
    PassesConcat(aware, a + ws + sym, ws, level);
    PassesConcat(aware, a + ws + sym + ws, b, level);
  }

  lemma PrefixPasses(aware: bool, a: seq<Byte>, b: seq<Byte>, level: nat)
    requires PlainText(a) && Passes(aware, b, level)
    ensures Passes(aware, a + b, level)
  {
    PlainPasses(aware, a, level);
    PassesConcat(aware, a, b, level);
  }

  lemma AppliedPasses(aware: bool, head: seq<Byte>, inner: seq<Byte>, level: nat)
    requires PlainText(head) && Passes(aware, inner, level + 1) && (!aware ==> level >= 1)
    ensures Passes(aware, head + [OPEN] + inner + [CLOSE], level)
  {
    hide Passes;
    PassesInside(aware, inner, level);
    PrefixPasses(aware, head, [OPEN] + inner + [CLOSE], level);
    assert head + [OPEN] + inner + [CLOSE] == head + ([OPEN] + inner + [CLOSE]);
  }

  lemma LeafPasses(aware: bool, e: Expr, ws: seq<Byte>, level: nat)
    requires Printable(e) && Scannable(aware, e) && (e.Number? || e.Quoted? || e.Void? || e.Ref?)
    ensures Passes(aware, Body(e, ws), level)
  {
    hide Passes;
    if e.Quoted? {
      QuotedPasses(aware, e.text, level);
    } else {
      if e.Number? {
        forall b | b in e.token ensures PlainChar(b) {
          var k :| 0 <= k < |e.token| && e.token[k] == b;
          NumberChars(e.token, k);
        }
      }
      PlainPasses(aware, Body(e, ws), level);
    }
  }

  lemma {:induction false} BodyPasses(aware: bool, e: Expr, ws: seq<Byte>, level: nat)
    requires Printable(e) && Inline(ws) && Scannable(aware, e) && (!aware ==> level >= 1)
    ensures Passes(aware, Body(e, ws), level)
    decreases e, 1
  {
    hide Passes, Render, RenderArgs, Inline;
    match e
    case Number(_) => LeafPasses(aware, e, ws, level);
    case Quoted(_) => LeafPasses(aware, e, ws, level);
    case Void => LeafPasses(aware, e, ws, level);
    case Ref(_) => LeafPasses(aware, e, ws, level);
    case Bin(op, l, r) =>
      RenderPasses(aware, l, LeftLevel(op), ws, level);
      RenderPasses(aware, r, RightLevel(op), ws, level);
      SymbolPlain(op);
      SandwichPasses(aware, Render(l, LeftLevel(op), ws), ws, Symbol(op), Render(r, RightLevel(op), ws), level);
    case Assign(l, r) =>
      RenderPasses(aware, l, 3, ws, level);
      RenderPasses(aware, r, 3, ws, level);
      SandwichPasses(aware, Render(l, 3, ws), ws, [EQUALS], Render(r, 3, ws), level);
    case Minus(a) =>
      RenderPasses(aware, a, 5, ws, level);
      PrefixPasses(aware, [DASH], Render(a, 5, ws), level);
    case Bump(up, a) =>
      RenderPasses(aware, a, 5, ws, level);
      PrefixPasses(aware, if up then [PLUS, PLUS] else [DASH, DASH], Render(a, 5, ws), level);
    case Not(a) =>
      RenderPasses(aware, a, 8, ws, level);
      PrefixPasses(aware, [BANG], Render(a, 8, ws), level);
    case _ => NamedPasses(aware, e, ws, level);
  }

  lemma {:induction false} NamedPasses(aware: bool, e: Expr, ws: seq<Byte>, level: nat)
    requires Printable(e) && Inline(ws) && Scannable(aware, e) && (!aware ==> level >= 1) && Applied(e)
    ensures Passes(aware, Body(e, ws), level)
    decreases e, 0
  {
    hide Passes, Render, RenderArgs, Inline;
    match e
    case Call(f, args) =>
      ArgsPass(aware, args, ws, level + 1);
      AppliedPasses(aware, f, RenderArgs(args, ws), level);
    case Foreign(lib, fn, args) =>
      ArgsPass(aware, args, ws, level + 1);
      AppliedPasses(aware, lib + [COLON, COLON] + fn, RenderArgs(args, ws), level);
    case Print(a) =>
      RenderPasses(aware, a, 0, ws, level + 1);
      AppliedPasses(aware, PRINT_NAME, Render(a, 0, ws), level);
    case Microtime =>
      PlainPasses(aware, [], level + 1);
      AppliedPasses(aware, MICROTIME_NAME, [], level);
      assert Body(e, ws) == MICROTIME_NAME + [OPEN] + [] + [CLOSE];
  }

  lemma {:induction false} ArgsPass(aware: bool, args: seq<Expr>, ws: seq<Byte>, level: nat)
    requires PrintableAll(args) && Inline(ws) && ScannableAll(aware, args) && level >= 1
    ensures Passes(aware, RenderArgs(args, ws), level)
    decreases args, 0
  {
    hide Passes, Render, Inline;
    if args == [] {
      PlainPasses(aware, [], level);
    } else {
      var first := Render(args[0], 4, ws);
      RenderPasses(aware, args[0], 4, ws, level);
      if |args| > 1 {
        ArgsPass(aware, args[1..], ws, level);
        CommaPasses(aware, level);
        SpacePasses(aware, ws, level);
        PassesConcat(aware, first, [COMMA], level);
        PassesConcat(aware, first + [COMMA], ws, level);
        PassesConcat(aware, first + [COMMA] + ws, RenderArgs(args[1..], ws), level);
      }
    }
  }

  lemma CommaPasses(aware: bool, level: nat)
    requires level >= 1
    ensures Passes(aware, [COMMA], level)
  {
    assert [COMMA][1..] == [];
  }

  lemma SpacePasses(aware: bool, ws: seq<Byte>, level: nat)
    requires Inline(ws)
    ensures Passes(aware, ws, level)
  {
    PlainPasses(aware, ws, level);
  }
}
