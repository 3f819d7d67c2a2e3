/** Which blocks return an operand with level tag 0, computed from their trees. */
module Tags {
  import opened Bytes
  import opened Values
  import opened Syntax
  import opened Tables
  import opened Fragment
  import opened Steps

  /** Strikes out the blocks whose return does not fit, until every one that is left does. */
  function ZeroWithin(fns: map<Name, Fn>, zero: set<Name>): (r: set<Name>)
    ensures r <= zero
    decreases |zero|
  {
    var kept := set f | f in zero && (f in fns ==> ZeroFn(Prog(fns, {}, zero, {}), fns[f]));
    if kept == zero then zero
    else
      Fewer(kept, zero);
      ZeroWithin(fns, kept)
  }

  lemma Fewer(a: set<Name>, b: set<Name>)
    requires a < b
    ensures |a| < |b|
  {
    var x :| x in b && x !in a;
    assert b == (b - {x}) + {x} && a <= b - {x};
    Subset(a, b - {x});
  }

  lemma {:induction false} Subset(a: set<Name>, b: set<Name>)
    requires a <= b
    ensures |a| <= |b|
    decreases |a|
  {
    if x :| x in a { Subset(a - {x}, b - {x}); }
  }

  /** The blocks whose results carry tag 0. Names without a block stay as they are claimed. */
  function ZeroBlocks(p: Prog): (r: set<Name>) {
    ZeroWithin(p.fns, p.fns.Keys + p.zero)
  }

  /** A program with its claims about tag 0 replaced by all that hold. */
  function Completed(p: Prog): (q: Prog) {
    p.(zero := ZeroBlocks(p))
  }

  /** More claims decide more trees in favour of tag 0. */
  lemma {:induction false} ZeroTagMore(p: Prog, q: Prog, e: Expr)
    requires p.zero <= q.zero
    ensures ZeroTag(p, e) ==> ZeroTag(q, e)
    ensures LeftSafe(p, e) ==> LeftSafe(q, e)
    decreases e
  {
    match e
    case Bin(_, l, _) => ZeroTagMore(p, q, l);
    case Not(a) => ZeroTagMore(p, q, a);
    case Minus(a) => ZeroTagMore(p, q, a);
    case Bump(_, a) => ZeroTagMore(p, q, a);
    case Assign(l, _) => ZeroTagMore(p, q, l);
    case _ =>
  }

  lemma {:induction false} ZeroTagSame(p: Prog, q: Prog, e: Expr)
    requires p.zero == q.zero
    ensures ZeroTag(p, e) == ZeroTag(q, e)
  {
    ZeroTagMore(p, q, e);
    ZeroTagMore(q, p, e);
  }

  /** What is struck out would not fit now either; what is left fits. */
  lemma {:induction false} WithinDecides(p: Prog, zero: set<Name>)
    requires forall f :: f in p.fns && f !in zero ==> !ZeroFn(p.(zero := zero), p.fns[f])
    ensures Decided(p.(zero := ZeroWithin(p.fns, zero)))
    decreases |zero|
  {
    var q := Prog(p.fns, {}, zero, {});
    var kept := set f | f in zero && (f in p.fns ==> ZeroFn(q, p.fns[f]));
    forall f | f in p.fns ensures ZeroFn(q, p.fns[f]) == ZeroFn(p.(zero := zero), p.fns[f]) {
      if p.fns[f].ret.Some? { ZeroTagSame(q, p.(zero := zero), p.fns[f].ret.value); }
    }
    if kept != zero {
      Fewer(kept, zero);
      forall f | f in p.fns && f !in kept ensures !ZeroFn(p.(zero := kept), p.fns[f]) {
        if p.fns[f].ret.Some? { ZeroTagMore(p.(zero := kept), q, p.fns[f].ret.value); }
      }
      WithinDecides(p, kept);
    }
  }

  lemma CompletedDecides(p: Prog)
    ensures Decided(Completed(p))
  {
    WithinDecides(p, p.fns.Keys + p.zero);
  }

  /** Claims that hold together are never struck out. */
  lemma {:induction false} WithinKeeps(p: Prog, zero: set<Name>)
    requires p.zero <= zero && forall f :: f in p.zero && f in p.fns ==> ZeroFn(p, p.fns[f])
    ensures p.zero <= ZeroWithin(p.fns, zero)
    decreases |zero|
  {
    var q := Prog(p.fns, {}, zero, {});
    var kept := set f | f in zero && (f in p.fns ==> ZeroFn(q, p.fns[f]));
    if kept != zero {
      forall f | f in p.zero ensures f in kept {
        if f in p.fns { ZeroTagMore(p, q, p.fns[f].ret.value); }
      }
      Fewer(kept, zero);
      WithinKeeps(p, kept);
    }
  }

  // ----- what is covered stays covered -----

  predicate Extends(p: Prog, q: Prog) {
    q.fns == p.fns && q.clean == p.clean && q.names == p.names && p.zero <= q.zero
  }

  lemma {:induction false} WfMore(p: Prog, q: Prog, e: Expr)
    requires Extends(p, q) && Wf(p, e)
    ensures Wf(q, e)
    decreases e, 2
  {
    match e
    case Bin(_, l, r) => WfMore(p, q, l); WfMore(p, q, r); ZeroTagMore(p, q, l);
    case Assign(l, r) => WfMore(p, q, l); WfMore(p, q, r); ZeroTagMore(p, q, l);
    case Not(a) => WfMore(p, q, a);
    case Minus(a) => WfMore(p, q, a);
    case Bump(_, a) => WfMore(p, q, a);
    case Call(_, args) => WfArgsMore(p, q, args);
    case Foreign(_, _, args) => WfArgsMore(p, q, args);
    case _ =>
  }

  lemma {:induction false} WfArgsMore(p: Prog, q: Prog, args: seq<Expr>)
    requires Extends(p, q) && WfArgs(p, args)
    ensures WfArgs(q, args)
    decreases args, 1
  {
    if args != [] {
      WfMore(p, q, args[0]);
      WfRestMore(p, q, args[0], args[1..]);
    }
  }

  lemma {:induction false} WfRestMore(p: Prog, q: Prog, pending: Expr, args: seq<Expr>)
    requires Extends(p, q) && WfRest(p, pending, args)
    ensures WfRest(q, pending, args)
    decreases args, 0
  {
    if args != [] {
      ZeroTagMore(p, q, pending);
      WfMore(p, q, args[0]);
      WfRestMore(p, q, args[0], args[1..]);
    }
  }

  lemma {:induction false} WfStmtMore(p: Prog, q: Prog, s: Stmt)
    requires Extends(p, q) && WfStmt(p, s)
    ensures WfStmt(q, s)
    decreases s, 1
  {
    hide Wf, Nest;
    match s
    case Declare(_) =>
    case Define(_, e) => WfMore(p, q, e);
    case Eval(e) => WfMore(p, q, if e.Print? then e.e else e);
    case If(c, yes) => WfMore(p, q, c); WfStmtsMore(p, q, yes);
    case IfElse(c, yes, no) => WfMore(p, q, c); WfStmtsMore(p, q, yes); WfStmtsMore(p, q, no);
    case While(c, body) => WfMore(p, q, c); WfStmtsMore(p, q, body);
  }

  lemma {:induction false} WfStmtsMore(p: Prog, q: Prog, ss: seq<Stmt>)
    requires Extends(p, q) && WfStmts(p, ss)
    ensures WfStmts(q, ss)
    decreases ss, 0
  {
    if ss != [] {
      WfStmtMore(p, q, ss[0]);
      WfStmtsMore(p, q, ss[1..]);
    }
  }

  lemma {:induction false} CleanMore(p: Prog, q: Prog, s: Stmt)
    requires Extends(p, q) && CleanStmt(p, s)
    ensures CleanStmt(q, s)
    decreases s, 1
  {
    hide Calls;
    match s
    case If(_, yes) => CleanStmtsMore(p, q, yes);
    case IfElse(_, yes, no) => CleanStmtsMore(p, q, yes); CleanStmtsMore(p, q, no);
    case While(_, body) => CleanStmtsMore(p, q, body);
    case _ =>
  }

  lemma {:induction false} CleanStmtsMore(p: Prog, q: Prog, ss: seq<Stmt>)
    requires Extends(p, q) && CleanStmts(p, ss)
    ensures CleanStmts(q, ss)
    decreases ss, 0
  {
    if ss != [] {
      CleanMore(p, q, ss[0]);
      CleanStmtsMore(p, q, ss[1..]);
    }
  }

  lemma FnMore(p: Prog, q: Prog, f: Fn)
    requires Extends(p, q) && WfFn(p, f)
    ensures WfFn(q, f) && (CleanFn(p, f) ==> CleanFn(q, f))
  {
    hide WfStmts, CleanStmts, Wf, Nest;
    WfStmtsMore(p, q, f.body);
    if CleanFn(p, f) { CleanStmtsMore(p, q, f.body); }
    if f.ret.Some? { WfMore(p, q, f.ret.value); }
  }

  /** A program meets the conditions of the simulation with any claims only if it does with the completed ones. */
  lemma CompletedFits(p: Prog)
    requires WfProg(p)
    ensures WfProg(Completed(p)) && Extends(p, Completed(p)) && Decided(Completed(p))
  {
    hide PrefixFree, WfFn, CleanFn;
    var q := Completed(p);
    assert Extends(p, q) by { WithinKeeps(p, p.fns.Keys + p.zero); }
    CompletedDecides(p);
    forall f | f in p.fns ensures WfFn(q, p.fns[f]) && (f in p.clean ==> CleanFn(q, p.fns[f])) {
      FnMore(p, q, p.fns[f]);
    }
  }

  lemma CompletedLinked(h: Host, c: Linked)
    requires LinkedOk(h, c)
    ensures LinkedOk(h, c.(p := Completed(c.p)))
  {
    hide WfProg;
    CompletedFits(c.p);
    var d := c.(p := Completed(c.p));
    forall f | f in d.p.fns ensures FnLinked(h, d, f) {
      assert FnLinked(h, c, f);
    }
  }
}
