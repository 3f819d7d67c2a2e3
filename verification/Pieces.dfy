/** What larva_chew would do to rendered text: quotes come in pairs, no hash stands outside them, and a backslash
    stands there exactly if a quoted text of the tree has one. */
module Pieces {
  import opened Bytes
  import opened Values
  import opened Syntax
  import opened Grammar
  import opened Rendering
  import opened Scanning
  import opened Chew

  /** The quote state behind a text; None for a hash outside quotes. */
  function Quotes(t: seq<Byte>, quoted: bool): (r: Option<bool>) {
    if t == [] then Some(quoted)
    else if t[0] == HASH && !quoted then None
    else Quotes(t[1..], quoted != (t[0] == QUOTE))
  }

  ghost predicate Piece(t: seq<Byte>, slashed: bool) {
    Quotes(t, false) == Some(false) && 0 !in t && (BACKSLASH in t <==> slashed)
  }

  lemma {:induction false} QuotesConcat(a: seq<Byte>, b: seq<Byte>, quoted: bool)
    ensures Quotes(a + b, quoted) == match Quotes(a, quoted) case None => None case Some(q) => Quotes(b, q)
    decreases |a|
  {
    if a == [] {
      assert a + b == b;
    } else {
      assert (a + b)[1..] == a[1..] + b;
      QuotesConcat(a[1..], b, quoted != (a[0] == QUOTE));
    }
  }

  lemma PieceConcat(a: seq<Byte>, x: bool, b: seq<Byte>, y: bool)
    requires Piece(a, x) && Piece(b, y)
    ensures Piece(a + b, x || y)
  {
    hide Quotes;
    QuotesConcat(a, b, false);
  }

  predicate Bare(t: seq<Byte>) {
    forall b :: b in t ==> b != 0 && b != HASH && b != QUOTE && b != BACKSLASH
  }

  lemma {:induction false} BarePiece(t: seq<Byte>)
    requires Bare(t)
    ensures Piece(t, false)
    decreases |t|
  {
    if t != [] {
      assert t[0] in t && forall b :: b in t[1..] ==> b in t;
      BarePiece(t[1..]);
      assert t == [t[0]] + t[1..];
    }
  }

  lemma PieceWithin(a: seq<Byte>, t: seq<Byte>, b: seq<Byte>, x: bool)
    requires Bare(a) && Piece(t, x) && Bare(b)
    ensures Piece(a + t + b, x)
  {
    hide Piece, Bare;
    BarePiece(a);
    BarePiece(b);
    PieceConcat(a, false, t, x);
    PieceConcat(a + t, x, b, false);
  }

  lemma PieceBetween(a: seq<Byte>, x: bool, t: seq<Byte>, b: seq<Byte>, y: bool)
    requires Piece(a, x) && Bare(t) && Piece(b, y)
    ensures Piece(a + t + b, x || y)
  {
    hide Piece, Bare;
    BarePiece(t);
    PieceConcat(a, x, t, false);
    PieceConcat(a + t, x, b, y);
  }

  lemma {:induction false} InQuotes(t: seq<Byte>)
    requires QUOTE !in t
    ensures Quotes(t, true) == Some(true)
    decreases |t|
  {
    if t != [] {
      assert t[0] in t && forall b :: b in t[1..] ==> b in t;
      InQuotes(t[1..]);
    }
  }

  lemma QuotedPiece(t: seq<Byte>)
    requires QUOTE !in t && 0 !in t
    ensures Piece([QUOTE] + t + [QUOTE], BACKSLASH in t)
  {
    QuotesConcat([QUOTE] + t, [QUOTE], false);
    QuotesConcat([QUOTE], t, false);
    assert [QUOTE][1..] == [];
    assert Quotes([QUOTE], false) == Some(true) && Quotes([QUOTE], true) == Some(false);
    InQuotes(t);
  }

  // ----- trees -----

  /** A quoted text of the tree has a backslash. */
  predicate Slashed(e: Expr)
    decreases e, 1
  {
    match e
    case Quoted(t) => BACKSLASH in t
    case Bin(_, l, r) => Slashed(l) || Slashed(r)
    case Assign(l, r) => Slashed(l) || Slashed(r)
    case Minus(a) => Slashed(a)
    case Bump(_, a) => Slashed(a)
    case Not(a) => Slashed(a)
    case Call(_, args) => SlashedAny(args)
    case Foreign(_, _, args) => SlashedAny(args)
    case Print(a) => Slashed(a)
    case _ => false
  }

  predicate SlashedAny(args: seq<Expr>)
    decreases args, 0
  {
    args != [] && (Slashed(args[0]) || SlashedAny(args[1..]))
  }

  lemma NameBare(x: Name)
    requires AllWord(x)
    ensures Bare(x)
  {
  }

  lemma SymbolBare(op: BinOp)
    ensures Bare(Symbol(op))
  {
  }

  lemma AroundBare(t: seq<Byte>, ws: seq<Byte>)
    requires Bare(t) && Blank(ws)
    ensures Bare(ws + t + ws)
  {
  }

  lemma NumberBare(t: seq<Byte>)
    requires IsNumber(t)
    ensures Bare(t)
  {
    hide IsNumber;
    forall b | b in t ensures b != 0 && b != HASH && b != QUOTE && b != BACKSLASH {
      var k :| 0 <= k < |t| && t[k] == b;
      NumberChars(t, k);
    }
  }

  lemma {:induction false} RenderPiece(e: Expr, lvl: nat, ws: seq<Byte>)
    requires Printable(e) && Blank(ws)
    ensures Piece(Render(e, lvl, ws), Slashed(e))
    decreases e, 3
  {
    hide Piece, Body, Printable;
    BodyPiece(e, ws);
    if Level(e) < lvl {
      EnclosedPiece(e, ws);
    }
  }

  lemma {:induction false} EnclosedPiece(e: Expr, ws: seq<Byte>)
    requires Printable(e) && Blank(ws)
    ensures Piece(Enclosed(e, ws), Slashed(e))
    decreases e, 2
  {
    hide Piece, Body, Printable;
    BodyPiece(e, ws);
    PieceWithin([OPEN] + ws, Body(e, ws), ws + [CLOSE], Slashed(e));
    assert Enclosed(e, ws) == ([OPEN] + ws) + Body(e, ws) + (ws + [CLOSE]);
  }

  lemma LeafPiece(e: Expr, ws: seq<Byte>)
    requires Printable(e) && (e.Number? || e.Quoted? || e.Void? || e.Ref? || e.Microtime?)
    ensures Piece(Body(e, ws), Slashed(e))
  {
    hide Piece, IsNumber;
    if e.Quoted? {
      QuotedPiece(e.text);
    } else {
      if e.Number? { NumberBare(e.token); }
      BarePiece(Body(e, ws));
    }
  }

  lemma {:induction false} BodyPiece(e: Expr, ws: seq<Byte>)
    requires Printable(e) && Blank(ws)
    ensures Piece(Body(e, ws), Slashed(e))
    decreases e, 1
  {
    hide Piece, Render, RenderArgs, Blank, Symbol;
    match e
    case Bin(op, l, r) =>
      var a, b := Render(l, LeftLevel(op), ws), Render(r, RightLevel(op), ws);
      RenderPiece(l, LeftLevel(op), ws);
      RenderPiece(r, RightLevel(op), ws);
      SymbolBare(op);
      AroundBare(Symbol(op), ws);
      PieceBetween(a, Slashed(l), ws + Symbol(op) + ws, b, Slashed(r));
      assert Body(e, ws) == a + (ws + Symbol(op) + ws) + b;
    case Assign(l, r) =>
      var a, b := Render(l, 3, ws), Render(r, 3, ws);
      RenderPiece(l, 3, ws);
      RenderPiece(r, 3, ws);
      AroundBare([EQUALS], ws);
      PieceBetween(a, Slashed(l), ws + [EQUALS] + ws, b, Slashed(r));
      assert Body(e, ws) == a + (ws + [EQUALS] + ws) + b;
    case Minus(a) => PrefixedPiece([DASH], a, 5, ws);
    case Bump(up, a) => PrefixedPiece(if up then [PLUS, PLUS] else [DASH, DASH], a, 5, ws);
    case Not(a) => PrefixedPiece([BANG], a, 8, ws);
    case Call(_, _) => NamedPiece(e, ws);
    case Foreign(_, _, _) => NamedPiece(e, ws);
    case Print(_) => NamedPiece(e, ws);
    case _ => LeafPiece(e, ws);
  }

  lemma {:induction false} NamedPiece(e: Expr, ws: seq<Byte>)
    requires Printable(e) && Blank(ws) && (e.Call? || e.Foreign? || e.Print?)
    ensures Piece(Body(e, ws), Slashed(e))
    decreases e, 0
  {
    hide Piece, Render, RenderArgs;
    match e
    case Call(f, args) =>
      ArgsPiece(args, ws);
      NameBare(f);
      PieceWithin(f + [OPEN], RenderArgs(args, ws), [CLOSE], SlashedAny(args));
    case Foreign(lib, fn, args) =>
      ArgsPiece(args, ws);
      NameBare(lib);
      NameBare(fn);
      PieceWithin(lib + [COLON, COLON] + fn + [OPEN], RenderArgs(args, ws), [CLOSE], SlashedAny(args));
    case Print(a) =>
      RenderPiece(a, 0, ws);
      PieceWithin(PRINT_NAME + [OPEN], Render(a, 0, ws), [CLOSE], Slashed(a));
  }

  lemma {:induction false} PrefixedPiece(sign: seq<Byte>, a: Expr, lvl: nat, ws: seq<Byte>)
    requires Printable(a) && Blank(ws) && Bare(sign)
    ensures Piece(sign + Render(a, lvl, ws), Slashed(a))
    decreases a, 4
  {
    hide Piece, Render, Printable;
    RenderPiece(a, lvl, ws);
    PieceWithin(sign, Render(a, lvl, ws), [], Slashed(a));
    assert sign + Render(a, lvl, ws) + [] == sign + Render(a, lvl, ws);
  }

  lemma {:induction false} ArgsPiece(args: seq<Expr>, ws: seq<Byte>)
    requires PrintableAll(args) && Blank(ws)
    ensures Piece(RenderArgs(args, ws), SlashedAny(args))
    decreases args, 0
  {
    hide Piece, Render, Printable, Slashed;
    if args == [] {
      BarePiece([]);
    } else {
      var first := Render(args[0], 4, ws);
      RenderPiece(args[0], 4, ws);
      if |args| > 1 {
        ArgsPiece(args[1..], ws);
        PieceBetween(first, Slashed(args[0]), [COMMA] + ws, RenderArgs(args[1..], ws), SlashedAny(args[1..]));
        assert RenderArgs(args, ws) == first + ([COMMA] + ws) + RenderArgs(args[1..], ws);
      } else {
        assert args[1..] == [];
      }
    }
  }

  // ----- chewing -----

  lemma {:induction false} CleanIff(t: seq<Byte>, quoted: bool)
    requires Quotes(t, quoted).Some? && (t != [] ==> t[|t| - 1] != BACKSLASH)
    ensures Clean(t, quoted) <==> BACKSLASH !in t
    decreases |t|
  {
    if t != [] {
      CleanIff(t[1..], quoted != (t[0] == QUOTE));
      assert t == [t[0]] + t[1..];
    }
  }

  /** Such a text, with its terminating zero, is left alone exactly if it has no backslash. */
  lemma PieceFixed(t: seq<Byte>, slashed: bool)
    requires Piece(t, slashed)
    ensures Chewed(t + [0], 0, false) == t + [0] <==> !slashed
  {
    hide Quotes, Chewed, Clean;
    QuotesConcat(t, [0], false);
    assert Quotes([0], false) == Some(false) by { ZeroQuotes(); }
    CleanIff(t + [0], false);
    CleanIffFixed(t + [0]);
  }

  lemma ZeroQuotes()
    ensures Quotes([0], false) == Some(false)
  {
    assert [0 as Byte][1..] == [];
  }
}
