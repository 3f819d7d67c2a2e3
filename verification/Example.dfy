/** A program that calls itself twice in one sum meets every condition of the theorems about whole programs. */
module Example {
  import opened Bytes
  import opened Values
  import opened Tables
  import opened Syntax
  import opened Fragment
  import opened Program
  import opened Grammar
  import opened Digest
  import opened Rendering
  import opened Layout
  import opened Interpreter

  const F: Name := [102]
  const N: Name := [110]
  const X: Name := [120]

  function One(): (e: Expr) {
    Number([49])
  }

  function Less(): (e: Expr) {
    Bin(BinOp.Sub, Ref(N), One())
  }

  function SelfCall(): (e: Expr) {
    Call(F, [Less()])
  }

  /** var n=f(n-1)+f(n-1) */
  function Twice(): (s: Stmt) {
    Define(N, Bin(BinOp.Add, SelfCall(), SelfCall()))
  }

  /** if(n) { ... } */
  function Guarding(): (s: Stmt) {
    If(Ref(N), [Twice()])
  }

  function Doubling(): (f: Fn) {
    Fn([N], [Guarding()], Some(Ref(N)))
  }

  /** var x=f(1) */
  function Start(): (s: Stmt) {
    Define(X, Call(F, [One()]))
  }

  /** block f(n) { ... return n }  var x=f(1) */
  function Recursive(): (src: Source) {
    Source([Def(F, Doubling())], [Start()])
  }

  function Claims(): (p: Prog) {
    Prog(map[F := Doubling()], {F}, {F}, {N, X})
  }

  lemma LessFits()
    ensures Wf(Claims(), Less()) && Calls(Less()) == {} && Wf(Claims(), One()) && Calls(One()) == {}
  {
    assert Calls(Ref(N)) == {};
    assert Wf(Claims(), Ref(N)) && Above(Claims(), Ref(N), One());
  }

  lemma CallFits(a: Expr)
    requires Wf(Claims(), a) && Calls(a) == {}
    ensures Wf(Claims(), Call(F, [a])) && Calls(Call(F, [a])) == {F}
  {
    hide Wf, Calls;
    assert [a][1..] == [];
    CallWf(a);
    CallCalls(a);
  }

  lemma CallWf(a: Expr)
    requires Wf(Claims(), a)
    ensures Wf(Claims(), Call(F, [a]))
  {
    var args := [a];
    assert WfRest(Claims(), a, args[1..]);
    assert WfArgs(Claims(), args);
  }

  lemma CallCalls(a: Expr)
    requires Calls(a) == {}
    ensures Calls(Call(F, [a])) == {F}
  {
    var args := [a];
    assert CallsInArgs(args[1..]) == {};
    assert CallsInArgs(args) == {};
  }

  /** The second call runs while the result of the first one is pending: it must be clean, and that result must
      carry tag 0. */
  lemma TwiceFits()
    ensures WfStmt(Claims(), Twice()) && CleanStmt(Claims(), Twice())
  {
    LessFits();
    CallFits(Less());
    var e := Twice().e;
    assert Above(Claims(), e.l, e.r);
    assert Calls(e) == {F};
  }

  lemma GuardingFits()
    ensures WfStmt(Claims(), Guarding()) && CleanStmt(Claims(), Guarding()) && NestOne(Guarding()) == 1
  {
    TwiceFits();
    var yes := [Twice()];
    assert yes[1..] == [];
    assert WfStmts(Claims(), yes) && CleanStmts(Claims(), yes);
    assert NestOne(Twice()) == 0 && Nest(yes[1..]) == 0 && Nest(yes) == 0;
    assert Calls(Ref(N)) == {};
  }

  lemma DoublingFits()
    ensures WfFn(Claims(), Doubling()) && CleanFn(Claims(), Doubling()) && ZeroFn(Claims(), Doubling())
  {
    hide WfStmt, CleanStmt;
    GuardingFits();
    var body := Doubling().body;
    assert body[1..] == [];
    assert WfStmts(Claims(), body) && CleanStmts(Claims(), body) && Nest(body[1..]) == 0;
    assert Calls(Ref(N)) == {};
  }

  lemma StartFits()
    ensures WfStmt(Claims(), Start())
  {
    LessFits();
    CallFits(One());
  }

  lemma RecursiveFits()
    ensures WfSource(Recursive(), Claims())
  {
    hide Bucket, WfFn, CleanFn, ZeroFn, WfStmt;
    var src, p := Recursive(), Claims();
    StartFits();
    DoublingFits();
    assert src.main[1..] == [] && src.defs[1..] == [];
    assert WfStmts(p, src.main);
    assert Fns(src.defs) == Fns(src.defs[1..])[F := Doubling()];
    assert PrefixFree(1000, p.names);
  }

  lemma OneIsNumber()
    ensures IsNumber([49])
  {
    var s: Input := [49, 0];
    assert [49] + [0] == s;
    assert Digits(s, 1) == 1;
    assert Digits(s, 0) == 1;
    assert NumberEnd(s, 0) == 1;
  }

  lemma NamesPrint()
    ensures TokenName(F) && TokenName(N) && TokenName(X) && !Reserved(N) && !Reserved(X) && Printable(Ref(N))
  {
    assert F[0] in F && N[0] in N && X[0] in X;
  }

  lemma CallPrints(a: Expr)
    requires Printable(a)
    ensures Printable(Call(F, [a]))
  {
    NamesPrint();
    var args := [a];
    assert args[1..] == [];
    assert PrintableAll(args);
  }

  lemma LessPrints()
    ensures Printable(One()) && Printable(Less())
  {
    hide IsNumber;
    OneIsNumber();
    NamesPrint();
  }

  lemma StatementsPrint(y: Style)
    ensures Writable(y, Start()) && Writable(y, Guarding())
  {
    hide IsNumber, IsName;
    LessPrints();
    NamesPrint();
    CallPrints(One());
    CallPrints(Less());
    hide TokenName, Reserved;
    assert Printable(Twice().e);
    assert Writable(y, Twice());
    var yes := [Twice()];
    assert yes[1..] == [];
    assert WritableAll(y, yes);
  }

  /** The conditions can be met in every style. */
  lemma RecursiveIsWritten(y: Style)
    requires WfStyle(y)
    ensures Written(Recursive(), Claims(), y)
  {
    hide WfSource, Writable, Printable, TokenName, Reserved;
    RecursiveFits();
    StatementsPrint(y);
    NamesPrint();
    var src, f := Recursive(), Doubling();
    assert f.body[1..] == [] && src.main[1..] == [];
    assert WritableAll(y, f.body) && WritableAll(y, src.main);
    assert WritableDef(y, src.defs[0]);
  }
}
