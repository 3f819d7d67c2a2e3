/** How deep a program without recursion nests levels, read off its trees. */
module Levels {
  import opened Bytes
  import opened Values
  import opened Machine
  import opened Syntax
  import opened Semantics
  import opened Fragment
  import opened Program

  /** How many levels a block opens above its own. */
  type Heights = map<Name, nat>

  function Height(hs: Heights, f: Name): (n: nat) {
    if f in hs then hs[f] else 0
  }

  /** The levels opened above the current one while the expression is evaluated. */
  function Reach(hs: Heights, e: Expr): (n: nat)
    decreases e, 1
  {
    match e
    case Bin(_, l, r) => Larger(Reach(hs, l), Reach(hs, r))
    case Not(a) => Reach(hs, a)
    case Minus(a) => Reach(hs, a)
    case Bump(_, a) => Reach(hs, a)
    case Assign(l, r) => Larger(Reach(hs, l), Reach(hs, r))
    case Call(f, args) => Larger(ReachArgs(hs, args), 1 + Height(hs, f))
    case Foreign(_, _, args) => ReachArgs(hs, args)
    case Print(a) => Reach(hs, a)
    case _ => 0
  }

  function ReachArgs(hs: Heights, args: seq<Expr>): (n: nat)
    decreases args, 0
  {
    if args == [] then 0 else Larger(Reach(hs, args[0]), ReachArgs(hs, args[1..]))
  }

  function ReachOne(hs: Heights, s: Stmt): (n: nat)
    decreases s, 1
  {
    match s
    case Declare(_) => 0
    case Define(_, e) => Reach(hs, e)
    case Eval(e) => Reach(hs, e)
    case If(c, yes) => 1 + Larger(Reach(hs, c), ReachAll(hs, yes))
    case IfElse(c, yes, no) => 1 + Larger(Reach(hs, c), Larger(ReachAll(hs, yes), ReachAll(hs, no)))
    case While(c, body) => 1 + Larger(Reach(hs, c), ReachAll(hs, body))
  }

  function ReachAll(hs: Heights, ss: seq<Stmt>): (n: nat)
    decreases ss, 0
  {
    if ss == [] then 0 else Larger(ReachOne(hs, ss[0]), ReachAll(hs, ss[1..]))
  }

  function ReachFn(hs: Heights, f: Fn): (n: nat) {
    Larger(ReachAll(hs, f.body), if f.ret.Some? then Reach(hs, f.ret.value) else 0)
  }

  /** Every block stays within the height given for it. A block that can call itself has no such height. */
  predicate Ranked(fns: map<Name, Fn>, hs: Heights) {
    forall f :: f in fns ==> ReachFn(hs, fns[f]) <= Height(hs, f)
  }

  lemma RankedFns(p: Prog, hs: Heights)
    requires WfProg(p) && Ranked(p.fns, hs)
    ensures forall f :: f in p.fns ==> WfFn(p, p.fns[f]) && ReachFn(hs, p.fns[f]) <= Height(hs, f)
  {
  }

  lemma {:induction false} ArgsWf(p: Prog, pending: Expr, args: seq<Expr>)
    requires WfRest(p, pending, args)
    ensures forall a :: a in args ==> Wf(p, a)
    decreases |args|
  {
    if args != [] { ArgsWf(p, args[0], args[1..]); }
  }

  lemma {:induction false} ExprStays(h: Host, p: Prog, hs: Heights, e: Expr, w: World, d: nat, fuel: nat)
    requires WfProg(p) && Ranked(p.fns, hs) && Wf(p, e) && d + Reach(hs, e) <= 255
    ensures !Evaluate(h, p.fns, e, w, d, fuel).Unspecified?
    decreases fuel, e, 1
  {
    hide WfProg, WfRest, WfFn, EvaluateArgs, Invoke, Above, ReachArgs, Apply, Invert, Negate, Values.Bump;
    RankedFns(p, hs);
    hide Ranked, ReachFn;
    match e
    case Bin(op, l, r) =>
      ExprStays(h, p, hs, l, w, d, fuel);
      var o := Evaluate(h, p.fns, l, w, d, fuel);
      if o.Done? { ExprStays(h, p, hs, r, o.w, d, fuel); }
    case Not(a) => ExprStays(h, p, hs, a, w, d, fuel);
    case Minus(a) => ExprStays(h, p, hs, a, w, d, fuel);
    case Bump(_, a) => ExprStays(h, p, hs, a, w, d, fuel);
    case Assign(l, r) =>
      ExprStays(h, p, hs, l, w, d, fuel);
      var o := Evaluate(h, p.fns, l, w, d, fuel);
      if o.Done? { ExprStays(h, p, hs, r, o.w, d, fuel); }
    case Call(f, args) =>
      if args != [] { ArgsWf(p, args[0], args[1..]); }
      ArgsStay(h, p, hs, args, w, d, fuel);
      var o := EvaluateArgs(h, p.fns, args, w, d, fuel);
      if o.Done? && f in p.fns && fuel > 0 {
        InvokeStays(h, p, hs, p.fns[f], o.value, o.w, d + 1, fuel - 1);
      }
    case Foreign(_, _, args) =>
      if args != [] { ArgsWf(p, args[0], args[1..]); }
      ArgsStay(h, p, hs, args, w, d, fuel);
    case _ =>
  }

  lemma {:induction false} ArgsStay(h: Host, p: Prog, hs: Heights, args: seq<Expr>, w: World, d: nat, fuel: nat)
    requires WfProg(p) && Ranked(p.fns, hs) && d + ReachArgs(hs, args) <= 255
    requires forall a :: a in args ==> Wf(p, a)
    ensures !EvaluateArgs(h, p.fns, args, w, d, fuel).Unspecified?
    decreases fuel, args, 0
  {
    if args != [] {
      ExprStays(h, p, hs, args[0], w, d, fuel);
      var o := Evaluate(h, p.fns, args[0], w, d, fuel);
      if o.Done? { ArgsStay(h, p, hs, args[1..], o.w, d, fuel); }
    }
  }

  lemma {:induction false} InvokeStays(h: Host, p: Prog, hs: Heights, f: Fn, vals: seq<Value>, w: World, d: nat,
                                       fuel: nat)
    requires WfProg(p) && Ranked(p.fns, hs) && WfFn(p, f) && d + ReachFn(hs, f) <= 255
    ensures !Invoke(h, p.fns, f, vals, w, d, fuel).Unspecified?
    decreases fuel, f, 2
  {
    var w0 := w.(vars := Bind(f.params, vals, w.vars));
    AllStay(h, p, hs, f.body, w0, d, fuel);
    var o := ExecuteAll(h, p.fns, f.body, w0, d, fuel);
    if o.Done? && f.ret.Some? { ExprStays(h, p, hs, f.ret.value, o.w, d, fuel); }
  }

  lemma {:induction false} ChoiceStays(h: Host, p: Prog, hs: Heights, c: Expr, w: World, d: nat, fuel: nat)
    requires WfProg(p) && Ranked(p.fns, hs) && Wf(p, c) && d + 1 + Reach(hs, c) <= 255
    ensures !Choose(h, p.fns, c, w, d, fuel).Unspecified?
    decreases fuel, c, 2
  {
    ExprStays(h, p, hs, c, w, d + 1, fuel);
  }

  lemma ReachPrint(hs: Heights, e: Expr)
    ensures e.Print? ==> Reach(hs, e) == Reach(hs, e.e)
  {
  }

  lemma {:induction false} StmtStays(h: Host, p: Prog, hs: Heights, s: Stmt, w: World, d: nat, fuel: nat)
    requires WfProg(p) && Ranked(p.fns, hs) && WfStmt(p, s) && d + ReachOne(hs, s) <= 255
    ensures !Execute(h, p.fns, s, w, d, fuel).Unspecified?
    decreases fuel, s, 1
  {
    hide WfProg, Ranked, Wf, WfStmts, Evaluate, ExecuteAll, ReachAll, Reach, Choose, Nest;
    match s
    case Declare(_) =>
    case Define(_, e) => ExprStays(h, p, hs, e, w, d, fuel);
    case Eval(e) =>
      ReachPrint(hs, e);
      ExprStays(h, p, hs, if e.Print? then e.e else e, w, d, fuel);
    case If(c, yes) =>
      ChoiceStays(h, p, hs, c, w, d, fuel);
      var o := Choose(h, p.fns, c, w, d, fuel);
      if o.Done? { AllStay(h, p, hs, yes, o.w, d + 1, fuel); }
    case IfElse(c, yes, no) =>
      ChoiceStays(h, p, hs, c, w, d, fuel);
      var o := Choose(h, p.fns, c, w, d, fuel);
      if o.Done? { AllStay(h, p, hs, if o.value then yes else no, o.w, d + 1, fuel); }
    case While(c, body) =>
      ChoiceStays(h, p, hs, c, w, d, fuel);
      var o := Choose(h, p.fns, c, w, d, fuel);
      if o.Done? && o.value {
        AllStay(h, p, hs, body, o.w, d + 1, fuel);
        var o2 := ExecuteAll(h, p.fns, body, o.w, d + 1, fuel);
        if o2.Done? && fuel > 0 { StmtStays(h, p, hs, s, o2.w, d, fuel - 1); }
      }
  }

  lemma {:induction false} AllStay(h: Host, p: Prog, hs: Heights, ss: seq<Stmt>, w: World, d: nat, fuel: nat)
    requires WfProg(p) && Ranked(p.fns, hs) && WfStmts(p, ss) && d + ReachAll(hs, ss) <= 255
    ensures !ExecuteAll(h, p.fns, ss, w, d, fuel).Unspecified?
    decreases fuel, ss, 0
  {
    if ss != [] {
      StmtStays(h, p, hs, ss[0], w, d, fuel);
      var o := Execute(h, p.fns, ss[0], w, d, fuel);
      if o.Done? { AllStay(h, p, hs, ss[1..], o.w, d, fuel); }
    }
  }

  /** A program without recursion whose blocks nest at most 255 levels has a meaning at every fuel that
      suffices, and the machine halts on it exactly when some fuel does. */
  lemma RankedHalts(h: Host, src: Source, p: Prog, hs: Heights)
    requires WfSource(src, p) && Ranked(p.fns, hs) && ReachAll(hs, src.main) <= 255
    ensures forall fuel {:trigger Meaning(h, src, fuel)} :: !Meaning(h, src, fuel).Unspecified?
    ensures (exists n: nat :: Halted(Run(h, Initial(h, src), n))) <==>
            (exists fuel: nat :: !Meaning(h, src, fuel).Spent?)
  {
    forall fuel: nat ensures !Meaning(h, src, fuel).Unspecified? {
      AllStay(h, p, hs, src.main, World(map[], []), 0, fuel);
    }
    HaltsIffMeaningful(h, src, p);
  }
}
