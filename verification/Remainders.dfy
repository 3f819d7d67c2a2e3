/** A program with a block, a loop and both branches, for all numbers: from its characters to what it prints. */
module Remainders {
  import opened Bytes
  import opened Values
  import opened Syntax
  import opened Semantics
  import opened Tables
  import opened Machine
  import opened Fragment
  import opened Program
  import opened Grammar
  import opened Digest
  import opened Rendering
  import opened Scanning
  import opened Layout
  import opened Whole
  import opened Numerals
  import opened Chew
  import opened Files
  import opened Interpreter

  const REM: Name := [114, 101, 109]
  const A: Name := [97]
  const B: Name := [98]

  function Numeral(n: nat): (e: Expr) {
    Number(Decimal(n))
  }

  function Loop(): (s: Stmt) {
    While(Bin(Ge, Ref(A), Ref(B)), [Define(A, Bin(BinOp.Sub, Ref(A), Ref(B)))])
  }

  function Rem(): (f: Fn) {
    Fn([A, B], [Loop()], Some(Ref(A)))
  }

  function Say(t: seq<Byte>): (s: Stmt) {
    Eval(Print(Quoted(t)))
  }

  function Test(m: nat, n: nat): (s: Stmt) {
    IfElse(Call(REM, [Numeral(m), Numeral(n)]), [Say(Ascii("no"))], [Say(Ascii("yes"))])
  }

  function Divides(m: nat, n: nat): (src: Source) {
    Source([Def(REM, Rem())], [Test(m, n)])
  }

  /** No empty lines, no indentation, no blanks. */
  function Plainly(): (y: Style) {
    Style(0, [], [], [], NEWLINE, 0)
  }

  function Braces(inner: seq<Byte>): (t: seq<Byte>) {
    Ascii("{\n") + inner + Ascii("}\n")
  }

  /** The program, character by character. */
  function Characters(m: nat, n: nat): (t: seq<Byte>) {
    Ascii("block rem(a,b)\n") +
    Braces(Ascii("while(a>=b)\n") + Braces(Ascii("var a=a-b\n")) + Ascii("return a\n")) +
    (Ascii("if(rem(") + Decimal(m) + Ascii(",") + Decimal(n) + Ascii("))\n") +
     Braces(Ascii("print('no')\n")) +
     (Ascii("else\n") + Braces(Ascii("print('yes')\n"))))
  }

  lemma GroupText(inner: seq<Byte>)
    ensures Group(Plainly(), inner) == Braces(inner)
  {
  }

  lemma OneText(s: Stmt)
    ensures Texts(Plainly(), [s]) == Text(Plainly(), s)
  {
    hide Text;
    assert [s][1..] == [];
    assert Texts(Plainly(), []) == [];
  }

  lemma SubText()
    ensures Render(Bin(BinOp.Sub, Ref(A), Ref(B)), 0, []) == Ascii("a-b")
    ensures Enclosed(Bin(Ge, Ref(A), Ref(B)), []) == Ascii("(a>=b)")
  {
    assert Render(Ref(A), 4, []) == A && Render(Ref(B), 5, []) == B;
    assert Render(Ref(A), 4, []) == A && Render(Ref(B), 4, []) == B;
  }

  lemma LoopText()
    ensures Text(Plainly(), Loop()) == Ascii("while(a>=b)\n") + Braces(Ascii("var a=a-b\n"))
  {
    hide Render, Enclosed;
    SubText();
    var s := Define(A, Bin(BinOp.Sub, Ref(A), Ref(B)));
    OneText(s);
    assert Text(Plainly(), s) == Ascii("var a=a-b\n");
    GroupText(Ascii("var a=a-b\n"));
    assert Head(Plainly(), WHILE_WORD, Loop().c) == Ascii("while(a>=b)\n");
  }

  lemma RemLines()
    ensures ReturnText(Plainly(), Rem().ret) == Ascii("return a\n")
    ensures BlockLine(Plainly(), Def(REM, Rem())) == Ascii("block rem(a,b)\n")
  {
    assert Render(Ref(A), 0, []) == A;
    hide Render;
  }

  lemma RemText()
    ensures DefText(Plainly(), Def(REM, Rem())) ==
            Ascii("block rem(a,b)\n") +
            Braces(Ascii("while(a>=b)\n") + Braces(Ascii("var a=a-b\n")) + Ascii("return a\n"))
  {
    hide Text, Group, Braces, BlockLine, ReturnText;
    LoopText();
    OneText(Loop());
    RemLines();
    GroupText(Ascii("while(a>=b)\n") + Braces(Ascii("var a=a-b\n")) + Ascii("return a\n"));
  }

  lemma NumeralText(n: nat)
    ensures Render(Numeral(n), 4, []) == Decimal(n)
  {
    hide Decimal;
  }

  lemma ArgsText(m: nat, n: nat)
    ensures RenderArgs([Numeral(m), Numeral(n)], []) == Decimal(m) + Ascii(",") + Decimal(n)
  {
    hide Decimal, Render;
    var args := [Numeral(m), Numeral(n)];
    NumeralText(m);
    NumeralText(n);
    assert args[1..] == [Numeral(n)];
    assert RenderArgs([Numeral(n)], []) == Decimal(n);
  }

  lemma CallText(m: nat, n: nat)
    ensures Enclosed(Call(REM, [Numeral(m), Numeral(n)]), []) ==
            Ascii("(rem(") + Decimal(m) + Ascii(",") + Decimal(n) + Ascii("))")
  {
    hide Decimal, RenderArgs;
    ArgsText(m, n);
  }

  lemma SayText(t: seq<Byte>)
    ensures Texts(Plainly(), [Say(t)]) == Ascii("print('") + t + Ascii("')\n")
  {
    OneText(Say(t));
    assert Render(Quoted(t), 0, []) == [QUOTE] + t + [QUOTE];
    assert Render(Print(Quoted(t)), 0, []) == PRINT_NAME + [OPEN] + ([QUOTE] + t + [QUOTE]) + [CLOSE];
    hide Render;
  }

  lemma HeadText(m: nat, n: nat)
    ensures Head(Plainly(), IF_WORD, Test(m, n).c) ==
            Ascii("if(rem(") + Decimal(m) + Ascii(",") + Decimal(n) + Ascii("))\n")
    ensures Mark(Plainly(), ELSE_WORD) == Ascii("else\n")
  {
    hide Enclosed, Decimal;
    CallText(m, n);
  }

  lemma SayTexts()
    ensures Texts(Plainly(), [Say(Ascii("no"))]) == Ascii("print('no')\n")
    ensures Texts(Plainly(), [Say(Ascii("yes"))]) == Ascii("print('yes')\n")
  {
    hide Texts;
    SayText(Ascii("no"));
    SayText(Ascii("yes"));
  }

  lemma TestText(m: nat, n: nat)
    ensures Text(Plainly(), Test(m, n)) ==
            Ascii("if(rem(") + Decimal(m) + Ascii(",") + Decimal(n) + Ascii("))\n") + Braces(Ascii("print('no')\n")) +
            (Ascii("else\n") + Braces(Ascii("print('yes')\n")))
  {
    hide Enclosed, Texts, Decimal, Group, Braces, Head, Mark;
    HeadText(m, n);
    SayTexts();
    GroupText(Ascii("print('no')\n"));
    GroupText(Ascii("print('yes')\n"));
  }

  lemma ProgramText(m: nat, n: nat)
    ensures SourceText(Plainly(), Divides(m, n)) == Characters(m, n)
  {
    hide Text, DefText, Braces, Decimal;
    RemText();
    TestText(m, n);
    OneText(Test(m, n));
    var ds := [Def(REM, Rem())];
    assert ds[1..] == [];
    assert DefTexts(Plainly(), ds) == DefText(Plainly(), ds[0]);
  }

  // ----- what it means -----

  ghost predicate Holding(dec: Double -> Option<int>, w: World, k: int, n: int) {
    A in w.vars && B in w.vars && View(dec, w.vars[A]) == Some(Int(k)) && View(dec, w.vars[B]) == Some(Int(n))
  }

  lemma ConditionMeans(h: Host, dec: Double -> Option<int>, fns: map<Name, Fn>, w: World, d: nat, fuel: nat, k: nat,
                       n: nat)
    requires Exact(h, dec) && Holding(dec, w, k, n) && d + 1 <= 255
    ensures Choose(h, fns, Loop().c, w, d, fuel) == Done(k >= n, w)
  {
    hide Exact, Evaluate, View, Truth;
    EvaluateComputes(h, dec, fns, Loop().c, w, d + 1, fuel);
    TruthComputes(h, dec, Evaluate(h, fns, Loop().c, w, d + 1, fuel).value.v);
  }

  lemma BodyMeans(h: Host, dec: Double -> Option<int>, fns: map<Name, Fn>, w: World, d: nat, fuel: nat, k: nat, n: nat)
    requires Exact(h, dec) && Holding(dec, w, k, n) && k >= n && k <= LIMIT
    ensures var o := ExecuteAll(h, fns, Loop().body, w, d, fuel);
            o.Done? && o.w.out == w.out && Holding(dec, o.w, k - n, n)
  {
    hide Exact, Evaluate, View;
    var s := Loop().body[0];
    EvaluateComputes(h, dec, fns, s.e, w, d, fuel);
    var o := Execute(h, fns, s, w, d, fuel);
    assert Loop().body[1..] == [];
    assert o.Done? && o.w.out == w.out && Holding(dec, o.w, k - n, n);
    assert ExecuteAll(h, fns, [], o.w, d, fuel) == Done((), o.w);
  }

  lemma {:induction false} LoopMeans(h: Host, dec: Double -> Option<int>, fns: map<Name, Fn>, w: World, d: nat,
                                     fuel: nat, k: nat, n: nat)
    requires Exact(h, dec) && Holding(dec, w, k, n) && 0 < n && k <= LIMIT && d + 1 <= 255 && fuel >= k
    ensures var o := Execute(h, fns, Loop(), w, d, fuel);
            o.Done? && o.w.out == w.out && Holding(dec, o.w, k % n, n)
    decreases k
  {
    hide Exact, Choose, ExecuteAll, Holding;
    ConditionMeans(h, dec, fns, w, d, fuel, k, n);
    if k >= n {
      BodyMeans(h, dec, fns, w, d + 1, fuel, k, n);
      LoopMeans(h, dec, fns, ExecuteAll(h, fns, Loop().body, w, d + 1, fuel).w, d, fuel - 1, k - n, n);
      Subtracted(k, n);
    }
  }

  lemma Subtracted(k: nat, n: nat)
    requires 0 < n <= k
    ensures (k - n) % n == k % n
  {
    var q, r := k / n, k % n;
    assert k - n == (q - 1) * n + r;
    OneRemainder(k - n, q - 1, r, n);
  }

  lemma OneRemainder(k: int, q: int, r: int, n: nat)
    requires k == q * n + r && 0 <= r < n
    ensures k % n == r
  {
    var d := k / n - q;
    assert k % n - r == -(d * n);
  }

  /** A call of the block gives the remainder, its first argument by its second one. */
  lemma RemMeans(h: Host, dec: Double -> Option<int>, fns: map<Name, Fn>, w: World, d: nat, fuel: nat, x: Double,
                 y: Double)
    requires Exact(h, dec) && dec(x).Some? && dec(y).Some? && d + 1 <= 255
    requires 0 <= dec(x).value <= LIMIT && 0 < dec(y).value && fuel >= dec(x).value
    ensures var o := Invoke(h, fns, Rem(), [Num(x), Num(y)], w, d, fuel);
            o.Done? && o.w.out == w.out && View(dec, o.value.v) == Some(Int(dec(x).value % dec(y).value))
  {
    hide Exact, Execute;
    var m, n := dec(x).value, dec(y).value;
    var params, vals := [A, B], [Num(x), Num(y)];
    assert params[1..] == [B] && vals[1..] == [Num(y)] && [B][1..] == [] && [Num(y)][1..] == [];
    var w1 := w.(vars := Bind(params, vals, w.vars));
    assert Bind([B], [Num(y)], w.vars[A := Num(x)]) == w.vars[A := Num(x)][B := Num(y)];
    assert Holding(dec, w1, m, n);
    LoopMeans(h, dec, fns, w1, d, fuel, m, n);
    var w2 := Execute(h, fns, Loop(), w1, d, fuel).w;
    assert Rem().body[1..] == [];
    assert ExecuteAll(h, fns, [], w2, d, fuel) == Done((), w2);
    assert ExecuteAll(h, fns, Rem().body, w1, d, fuel) == Done((), w2);
  }

  lemma LiteralsMean(h: Host, fns: map<Name, Fn>, w: World, d: nat, fuel: nat, n: nat, t: seq<Byte>)
    ensures Evaluate(h, fns, Numeral(n), w, d, fuel) == Done(Item(Num(h.strtod(Decimal(n))), None), w)
    ensures Evaluate(h, fns, Quoted(t), w, d, fuel) == Done(Item(Str(t), None), w)
  {
  }

  lemma ArgsMean(h: Host, dec: Double -> Option<int>, fns: map<Name, Fn>, w: World, d: nat, fuel: nat, m: nat, n: nat)
    returns (x: Double, y: Double)
    requires Exact(h, dec) && m <= LIMIT && n <= LIMIT
    ensures EvaluateArgs(h, fns, [Numeral(m), Numeral(n)], w, d, fuel) == Done([Num(x), Num(y)], w)
    ensures dec(x) == Some(m) && dec(y) == Some(n)
  {
    hide Exact, Decimal;
    x, y := h.strtod(Decimal(m)), h.strtod(Decimal(n));
    DecimalReads(m);
    DecimalReads(n);
    LiteralShows(h, dec, Decimal(m));
    LiteralShows(h, dec, Decimal(n));
    LiteralsMean(h, fns, w, d, fuel, m, []);
    LiteralsMean(h, fns, w, d, fuel, n, []);
    hide Numeral, Evaluate;
    var args := [Numeral(m), Numeral(n)];
    assert args[1..] == [Numeral(n)] && args[1..][1..] == [];
    assert EvaluateArgs(h, fns, [], w, d, fuel) == Done([], w);
    assert [Num(y)] + [] == [Num(y)];
    assert EvaluateArgs(h, fns, args[1..], w, d, fuel) == Done([Num(y)], w);
    assert [Num(x)] + [Num(y)] == [Num(x), Num(y)];
  }

  lemma TestMeans(h: Host, dec: Double -> Option<int>, fns: map<Name, Fn>, w: World, fuel: nat, m: nat, n: nat)
    requires Exact(h, dec) && m <= LIMIT && 0 < n <= LIMIT && fuel > m && REM in fns && fns[REM] == Rem()
    ensures var o := Choose(h, fns, Test(m, n).c, w, 0, fuel); o.Done? && o.w.out == w.out && o.value == (m % n != 0)
  {
    hide Exact, Invoke, EvaluateArgs;
    var x, y := ArgsMean(h, dec, fns, w, 1, fuel, m, n);
    RemMeans(h, dec, fns, w, 2, fuel - 1, x, y);
    TruthComputes(h, dec, Evaluate(h, fns, Test(m, n).c, w, 1, fuel).value.v);
  }

  function Says(ts: seq<seq<Byte>>): (ss: seq<Stmt>)
    ensures |ss| == |ts|
  {
    seq(|ts|, i requires 0 <= i < |ts| => Say(ts[i]))
  }

  function Strings(ts: seq<seq<Byte>>): (vs: seq<Value>)
    ensures |vs| == |ts|
  {
    seq(|ts|, i requires 0 <= i < |ts| => Str(ts[i]))
  }

  /** What is printed comes behind what was printed before. */
  lemma {:induction false} PrintsInOrder(h: Host, fns: map<Name, Fn>, ts: seq<seq<Byte>>, w: World, d: nat, fuel: nat)
    ensures ExecuteAll(h, fns, Says(ts), w, d, fuel) == Done((), w.(out := w.out + Strings(ts)))
    decreases |ts|
  {
    if ts == [] {
      assert w.out + [] == w.out;
    } else {
      var first, rest := Str(ts[0]), ts[1..];
      var w1 := w.(out := w.out + [first]);
      PrintsInOrder(h, fns, rest, w1, d, fuel);
      assert Says(ts)[1..] == Says(rest);
      assert Execute(h, fns, Says(ts)[0], w, d, fuel) == Done((), w1) by { OneSay(h, fns, ts[0], w, d, fuel); }
      assert w.out + [first] + Strings(rest) == w.out + Strings(ts);
    }
  }

  lemma OneSay(h: Host, fns: map<Name, Fn>, t: seq<Byte>, w: World, d: nat, fuel: nat)
    ensures Execute(h, fns, Say(t), w, d, fuel) == Done((), w.(out := w.out + [Str(t)]))
  {
    LiteralsMean(h, fns, w, d, fuel, 0, t);
    hide Evaluate, Numeral;
  }

  lemma SayMeans(h: Host, fns: map<Name, Fn>, t: seq<Byte>, w: World, d: nat, fuel: nat)
    ensures ExecuteAll(h, fns, [Say(t)], w, d, fuel) == Done((), w.(out := w.out + [Str(t)]))
  {
    OneSay(h, fns, t, w, d, fuel);
    hide Evaluate, Execute;
    assert [Say(t)][1..] == [];
    assert ExecuteAll(h, fns, [], w.(out := w.out + [Str(t)]), d, fuel) == Done((), w.(out := w.out + [Str(t)]));
  }

  /** The program says whether n divides m. */
  lemma DividesMeans(h: Host, dec: Double -> Option<int>, m: nat, n: nat)
    requires Exact(h, dec) && m <= LIMIT && 0 < n <= LIMIT
    ensures var o := Meaning(h, Divides(m, n), m + 1);
            o.Done? && o.w.out == [Str(Ascii(if m % n == 0 then "yes" else "no"))]
  {
    hide Exact, Choose;
    var src, fuel := Divides(m, n), m + 1;
    var fns, w := Fns(src.defs), World(map[], []);
    assert src.defs[1..] == [] && src.main[1..] == [];
    TestMeans(h, dec, fns, w, fuel, m, n);
    var w1 := Choose(h, fns, Test(m, n).c, w, 0, fuel).w;
    SayMeans(h, fns, Ascii("no"), w1, 1, fuel);
    SayMeans(h, fns, Ascii("yes"), w1, 1, fuel);
    hide Rem;
    var o := Execute(h, fns, Test(m, n), w, 0, fuel);
    assert o.Done? && o.w.out == [Str(Ascii(if m % n == 0 then "yes" else "no"))];
    assert ExecuteAll(h, fns, [], o.w, 0, fuel) == Done((), o.w);
  }

  // ----- it is covered -----

  function Claims(): (p: Prog) {
    Prog(map[REM := Rem()], {REM}, {REM}, {A, B})
  }

  lemma LoopFits()
    ensures WfStmt(Claims(), Loop()) && CleanStmt(Claims(), Loop()) && NestOne(Loop()) == 1
  {
    var p, a, b, s := Claims(), Ref(A), Ref(B), Loop().body[0];
    assert Calls(a) == {} && Calls(b) == {} && Wf(p, a) && Wf(p, b) && Above(p, a, b);
    assert Calls(Loop().c) == {} && Calls(s.e) == {};
    assert Wf(p, Loop().c) && Wf(p, s.e);
    hide Wf, Calls;
    assert Loop().body[1..] == [];
    assert WfStmt(p, s) && CleanStmt(p, s) && NestOne(s) == 0;
    assert WfStmts(p, []) && CleanStmts(p, []) && Nest([]) == 0;
    assert WfStmts(p, Loop().body) && CleanStmts(p, Loop().body) && Nest(Loop().body) == 0;
  }

  lemma RemFits()
    ensures WfFn(Claims(), Rem()) && CleanFn(Claims(), Rem()) && ZeroFn(Claims(), Rem())
  {
    hide WfStmt, CleanStmt;
    LoopFits();
    var p := Claims();
    assert Calls(Ref(A)) == {} && Wf(p, Ref(A));
    assert Rem().body[1..] == [];
    assert WfStmts(p, []) && CleanStmts(p, []) && Nest([]) == 0;
    assert WfStmts(p, Rem().body) && CleanStmts(p, Rem().body) && Nest(Rem().body) == 1;
  }

  lemma CallFits(m: nat, n: nat)
    ensures Wf(Claims(), Test(m, n).c)
  {
    hide Decimal;
    var p, args := Claims(), [Numeral(m), Numeral(n)];
    assert Wf(p, args[0]) && Wf(p, args[1]) && Calls(args[1]) == {};
    hide Calls;
    assert args[1..] == [Numeral(n)] && args[1..][1..] == [];
    assert WfRest(p, args[1], []);
    assert WfRest(p, args[0], args[1..]);
    assert WfArgs(p, args);
  }

  lemma SayFits(t: seq<Byte>)
    requires |t| < 65536
    ensures WfStmts(Claims(), [Say(t)]) && Nest([Say(t)]) == 0
  {
    assert Wf(Claims(), Quoted(t));
    assert WfStmt(Claims(), Say(t));
    hide WfStmt;
    assert [Say(t)][1..] == [];
    assert WfStmts(Claims(), []) && Nest([]) == 0 && NestOne(Say(t)) == 0;
  }

  lemma DividesFits(m: nat, n: nat)
    ensures WfSource(Divides(m, n), Claims())
  {
    hide Bucket, WfFn, CleanFn, ZeroFn, Wf, Decimal;
    var src, p := Divides(m, n), Claims();
    RemFits();
    CallFits(m, n);
    SayFits(Ascii("no"));
    SayFits(Ascii("yes"));
    assert WfStmt(p, Test(m, n));
    hide WfStmt;
    assert src.main[1..] == [] && src.defs[1..] == [];
    assert WfStmts(p, []);
    assert WfStmts(p, src.main);
    assert Fns([]) == map[];
    assert Fns(src.defs) == Fns(src.defs[1..])[REM := Rem()];
    assert PrefixFree(1000, p.names);
  }

  // ----- it can be written -----

  lemma NamesPrint()
    ensures TokenName(REM) && TokenName(A) && TokenName(B) && !Reserved(A) && !Reserved(B)
    ensures Printable(Ref(A)) && Printable(Ref(B))
  {
    assert REM == [114, 101, 109] && A == [97] && B == [98];
    assert forall b :: b in REM ==> IsWord(b);
    assert forall b :: b in A ==> IsWord(b);
    assert forall b :: b in B ==> IsWord(b);
  }

  lemma LoopExprsPrint()
    ensures Printable(Loop().c) && Scannable(false, Loop().c) && Printable(Bin(BinOp.Sub, Ref(A), Ref(B)))
  {
    hide IsName, TokenName, Reserved;
    NamesPrint();
    assert Scannable(false, Ref(A)) && Scannable(false, Ref(B));
  }

  lemma LoopPrints(y: Style)
    ensures Writable(y, Loop())
  {
    hide TokenName, Reserved, Printable, Scannable, OpensExpr, Render;
    NamesPrint();
    LoopExprsPrint();
    var body := Loop().body;
    assert body[1..] == [];
    assert Writable(y, body[0]);
    assert WritableAll(y, []);
    assert WritableAll(y, body);
  }

  lemma CallPrints(m: nat, n: nat)
    ensures Printable(Test(m, n).c) && Scannable(false, Test(m, n).c)
  {
    hide Decimal, IsNumber, TokenName, Reserved;
    NamesPrint();
    DecimalReads(m);
    DecimalReads(n);
    DigitsAreNumber(Decimal(m));
    DigitsAreNumber(Decimal(n));
    var args := [Numeral(m), Numeral(n)];
    assert args[1..] == [Numeral(n)] && args[1..][1..] == [];
    assert Printable(Numeral(m)) && Printable(Numeral(n));
    assert PrintableAll([]) && ScannableAll(false, []);
    assert PrintableAll(args[1..]) && ScannableAll(false, args[1..]);
    assert PrintableAll(args) && ScannableAll(false, args);
  }

  lemma SayPrints(t: seq<Byte>)
    requires QUOTE !in t && 0 !in t && |t| < 200
    ensures WritableAll(Plainly(), [Say(t)])
  {
    var e, y := Print(Quoted(t)), Plainly();
    assert Printable(Quoted(t)) && Printable(e);
    assert Render(Quoted(t), 0, []) == [QUOTE] + t + [QUOTE];
    assert Render(e, 0, []) == PRINT_NAME + [OPEN] + ([QUOTE] + t + [QUOTE]) + [CLOSE];
    hide Render, Printable;
    PrintOpens([QUOTE] + t + [QUOTE]);
    assert Writable(y, Say(t));
    hide Writable;
    assert [Say(t)][1..] == [];
    assert WritableAll(y, []);
  }

  /** The first token of a line that prints is the word in front of the parenthesis. */
  lemma PrintOpens(t: seq<Byte>)
    ensures OpensExpr(PRINT_NAME + [OPEN] + t + [CLOSE])
  {
    var u := PRINT_NAME + [OPEN] + t + [CLOSE];
    var c: Input := u + [NEWLINE, NUL];
    assert At(c, 0, [] + PRINT_NAME);
    assert forall b :: b in PRINT_NAME[1..] ==> !Delimits(b);
    TokenRead(c, 0, [], PRINT_NAME);
  }

  lemma DividesPrints(m: nat, n: nat)
    ensures WritableSource(Plainly(), Divides(m, n))
  {
    hide Printable, Scannable, TokenName, Reserved, Writable;
    var y, src := Plainly(), Divides(m, n);
    NamesPrint();
    LoopPrints(y);
    assert Rem().body[1..] == [] && src.main[1..] == [];
    assert WritableAll(y, []);
    assert WritableAll(y, Rem().body);
    assert WritableDef(y, src.defs[0]);
    TestPrints(m, n);
    assert WritableAll(y, src.main);
  }

  lemma TestPrints(m: nat, n: nat)
    ensures Writable(Plainly(), Test(m, n))
  {
    hide Printable, Scannable, WritableAll;
    CallPrints(m, n);
    SayPrints(Ascii("no"));
    SayPrints(Ascii("yes"));
  }

  // ----- the search and the cleaning let it pass -----

  /** No letter d, and no backslash. */
  predicate Harmless(t: seq<Byte>) {
    forall i :: 0 <= i < |t| ==> t[i] != 100 && t[i] != BACKSLASH
  }

  lemma DecimalShort(n: nat)
    requires n <= LIMIT
    ensures |Decimal(n)| <= 16 && Harmless(Decimal(n))
  {
    DecimalReads(n);
    hide NumberOf;
    assert Ten(4) == 10000;
    assert Ten(8) == 10000 * Ten(4);
    assert Ten(12) == 10000 * Ten(8);
    assert Ten(16) == 10000 * Ten(12);
    DecimalLength(n, 16);
  }

  function Ten(k: nat): (r: nat) {
    if k == 0 then 1 else 10 * Ten(k - 1)
  }

  lemma {:induction false} DecimalLength(n: nat, k: nat)
    requires n < Ten(k) && k > 0
    ensures |Decimal(n)| <= k
    decreases k
  {
    if n >= 10 { DecimalLength(n / 10, k - 1); }
  }

  lemma HarmlessBraces(t: seq<Byte>)
    requires Harmless(t)
    ensures Harmless(Braces(t)) && |Braces(t)| == |t| + 4
  {
  }

  lemma RemHarmless()
    ensures var t := Ascii("block rem(a,b)\n") +
                     Braces(Ascii("while(a>=b)\n") + Braces(Ascii("var a=a-b\n")) + Ascii("return a\n"));
            Harmless(t) && |t| < 100
  {
    hide Braces;
    HarmlessBraces(Ascii("var a=a-b\n"));
    HarmlessBraces(Ascii("while(a>=b)\n") + Braces(Ascii("var a=a-b\n")) + Ascii("return a\n"));
  }

  lemma TestHarmless(m: nat, n: nat)
    requires m <= LIMIT && n <= LIMIT
    ensures var t := Ascii("if(rem(") + Decimal(m) + Ascii(",") + Decimal(n) + Ascii("))\n") +
                     Braces(Ascii("print('no')\n")) + (Ascii("else\n") + Braces(Ascii("print('yes')\n")));
            Harmless(t) && |t| < 150
  {
    hide Braces, Decimal;
    DecimalShort(m);
    DecimalShort(n);
    HarmlessBraces(Ascii("print('no')\n"));
    HarmlessBraces(Ascii("print('yes')\n"));
  }

  lemma CharactersHarmless(m: nat, n: nat)
    requires m <= LIMIT && n <= LIMIT
    ensures Harmless(Characters(m, n)) && 0 < |Characters(m, n)| < 250
  {
    hide Braces, Decimal;
    RemHarmless();
    TestHarmless(m, n);
  }

  lemma HarmlessIsQuiet(t: seq<Byte>)
    requires Harmless(t) && |t| < 250
    ensures Quiet(t + [NUL])
  {
    hide TokenEnd;
    var c: Input := t + [NUL];
    forall i: nat | i < |c| ensures |TokenFrom(c, i)| < MAX_TOKEN && TokenFrom(c, i) != INCLUDE_WORD {
      var u := TokenFrom(c, i);
      assert INCLUDE_WORD[5] == 100;
      if |u| > 5 { assert u[5] == c[i + 5]; }
    }
  }

  /** The program's characters are its text, and neither the cleaning nor the search for inclusions touches them. */
  lemma DividesPasses(m: nat, n: nat)
    requires m <= LIMIT && n <= LIMIT
    ensures SourceText(Plainly(), Divides(m, n)) == Characters(m, n) && |Characters(m, n)| < 250
    ensures Cleaned(Characters(m, n)) == Characters(m, n) + [NUL]
    ensures Searched(Characters(m, n) + [NUL], 0) == None
  {
    hide SourceText, Characters, WritableSource, Quiet, Cleaned, Searched, SlashedSource;
    var y, src, t := Plainly(), Divides(m, n), Characters(m, n);
    ProgramText(m, n);
    CharactersHarmless(m, n);
    DividesPrints(m, n);
    SourcePiece(y, src);
    assert !SlashedSource(src) by { assert BACKSLASH !in t; }
    TextIsClean(y, src);
    HarmlessIsQuiet(t);
    QuietSource(y, src);
  }

  // ----- running it -----

  /** Interpreting the file prints whether n divides m, for all numbers that a double holds exactly. */
  method InterpretDivides(host: Host, m: nat, n: nat, ghost dec: Double -> Option<int>)
    returns (fault: Option<Fault>, vars: Vars, out: seq<Value>)
    requires Exact(host, dec) && m <= LIMIT && 0 < n <= LIMIT
    ensures fault == None && out == [Str(Ascii(if m % n == 0 then "yes" else "no"))]
  {
    hide Exact, Characters, SourceText, Cleaned, Searched, Meaning, WfSource, WritableSource, Represents;
    ghost var src := Divides(m, n);
    DividesPasses(m, n);
    DividesFits(m, n);
    DividesPrints(m, n);
    DividesMeans(host, dec, m, n);
    fault, vars, out := InterpretSource(host, Characters(m, n), src, Claims(), Plainly(), m + 1);
  }
}
