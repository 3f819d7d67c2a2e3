/** The programs the simulation speaks about, by conditions that can be read off their trees. */
module Fragment {
  import opened Bytes
  import opened Values
  import opened Tables
  import opened Syntax

  /** Functions, those claimed to leave nothing behind, those claimed to return an operand with tag 0, and
      the variable names in use. */
  datatype Prog = Prog(fns: map<Name, Fn>, clean: set<Name>, zero: set<Name>, names: set<Name>)

  function Calls(e: Expr): (r: set<Name>)
    decreases e, 1
  {
    match e
    case Bin(_, l, r) => Calls(l) + Calls(r)
    case Not(a) => Calls(a)
    case Minus(a) => Calls(a)
    case Bump(_, a) => Calls(a)
    case Assign(l, r) => Calls(l) + Calls(r)
    case Call(f, args) => {f} + CallsInArgs(args)
    case Foreign(_, _, args) => CallsInArgs(args)
    case Print(a) => Calls(a)
    case Access(_, i) => Calls(i)
    case SetElem(_, i, v) => Calls(i) + Calls(v)
    case AddElem(_, v) => Calls(v)
    case _ => {}
  }

  function CallsInArgs(args: seq<Expr>): (r: set<Name>)
    decreases args, 0
  {
    if args == [] then {} else Calls(args[0]) + CallsInArgs(args[1..])
  }

  /** The operand of the expression carries level tag 0. */
  predicate ZeroTag(p: Prog, e: Expr) {
    match e
    case Number(_) => true
    case Void => true
    case Ref(_) => true
    case Bin(op, l, _) => Fresh(op) || ZeroTag(p, l)
    case Not(a) => ZeroTag(p, a)
    case Minus(a) => ZeroTag(p, a)
    case Bump(_, a) => ZeroTag(p, a)
    case Assign(l, _) => ZeroTag(p, l)
    case Call(f, _) => f in p.zero
    case _ => false
  }

  /** The level tag of the expression's operand is not above the current level. */
  predicate LeftSafe(p: Prog, e: Expr) {
    match e
    case Bin(op, l, _) => Fresh(op) || LeftSafe(p, l)
    case Not(a) => LeftSafe(p, a)
    case Minus(a) => LeftSafe(p, a)
    case Bump(_, a) => LeftSafe(p, a)
    case Assign(l, _) => LeftSafe(p, l)
    case Call(f, _) => f in p.zero
    case _ => true
  }

  /** While an operand is pending, only clean blocks may run, and they must stop clearing at that operand. */
  predicate Above(p: Prog, pending: Expr, e: Expr) {
    Calls(e) <= p.clean && (Calls(e) != {} ==> LeftSafe(p, pending))
  }

  predicate Wf(p: Prog, e: Expr)
    decreases e, 2
  {
    match e
    case Number(_) => true
    case Quoted(t) => |t| < 65536
    case Void => true
    case Ref(x) => x in p.names && |x| < 256
    case Bin(_, l, r) => Wf(p, l) && Wf(p, r) && Above(p, l, r)
    case Not(a) => Wf(p, a)
    case Minus(a) => Wf(p, a)
    case Bump(_, a) => Wf(p, a)
    case Assign(l, r) => Wf(p, l) && Wf(p, r) && Above(p, l, r)
    case Call(f, args) => |f| < 256 && WfArgs(p, args) && (f in p.fns ==> |args| == |p.fns[f].params|)
    case Foreign(lib, fn, args) => |lib| < 256 && |fn| < 256 && WfArgs(p, args)
    case _ => false
  }

  predicate WfArgs(p: Prog, args: seq<Expr>)
    decreases args, 1
  {
    |args| < 256 && (args == [] || (Wf(p, args[0]) && WfRest(p, args[0], args[1..])))
  }

  predicate WfRest(p: Prog, pending: Expr, args: seq<Expr>)
    decreases args, 0
  {
    args == [] || (Wf(p, args[0]) && Above(p, pending, args[0]) && WfRest(p, args[0], args[1..]))
  }

  predicate Clean(p: Prog, e: Expr) {
    Wf(p, e) && Calls(e) <= p.clean
  }

  predicate WfName(p: Prog, x: Name) {
    x in p.names && |x| < 256
  }

  predicate WfStmt(p: Prog, s: Stmt)
    decreases s, 1
  {
    match s
    case Declare(x) => WfName(p, x)
    case Define(x, e) => WfName(p, x) && Wf(p, e)
    case Eval(Print(e)) => Wf(p, e)
    case Eval(e) => Wf(p, e)
    case If(c, yes) => Wf(p, c) && WfStmts(p, yes) && Nest(yes) < 255
    case IfElse(c, yes, no) => Wf(p, c) && WfStmts(p, yes) && WfStmts(p, no) && Nest(yes) < 255 && Nest(no) < 255
    case While(c, body) => Wf(p, c) && WfStmts(p, body) && Nest(body) < 255
  }

  predicate WfStmts(p: Prog, ss: seq<Stmt>)
    decreases ss, 0
  {
    ss == [] || (WfStmt(p, ss[0]) && WfStmts(p, ss[1..]))
  }

  /** Statements that leave no operand behind: everything but bare expressions. */
  predicate CleanStmt(p: Prog, s: Stmt)
    decreases s, 1
  {
    match s
    case Declare(_) => true
    case Define(_, e) => Calls(e) <= p.clean
    case Eval(Print(e)) => Calls(e) <= p.clean
    case Eval(_) => false
    case If(c, yes) => Calls(c) <= p.clean && CleanStmts(p, yes)
    case IfElse(c, yes, no) => Calls(c) <= p.clean && CleanStmts(p, yes) && CleanStmts(p, no)
    case While(c, body) => Calls(c) <= p.clean && CleanStmts(p, body)
  }

  predicate CleanStmts(p: Prog, ss: seq<Stmt>)
    decreases ss, 0
  {
    ss == [] || (CleanStmt(p, ss[0]) && CleanStmts(p, ss[1..]))
  }

  predicate WfParams(p: Prog, params: seq<Name>) {
    |params| < 256 && forall x :: x in params ==> WfName(p, x)
  }

  predicate WfFn(p: Prog, f: Fn) {
    WfParams(p, f.params) && WfStmts(p, f.body) && Nest(f.body) < 255 && (f.ret.Some? ==> Wf(p, f.ret.value))
  }

  predicate CleanFn(p: Prog, f: Fn) {
    CleanStmts(p, f.body) && (f.ret.Some? ==> Calls(f.ret.value) <= p.clean)
  }

  predicate ZeroFn(p: Prog, f: Fn) {
    f.ret.Some? && ZeroTag(p, f.ret.value)
  }

  /** The claims about tag 0 leave nothing out: a block is among them exactly if its return asks for it. */
  predicate Decided(p: Prog) {
    forall f :: f in p.fns ==> (f in p.zero <==> ZeroFn(p, p.fns[f]))
  }

  /** What the tree says about the level tag of its operand, at level d. */
  predicate TagFits(p: Prog, e: Expr, d: nat, level: nat) {
    (ZeroTag(p, e) ==> level == 0) && (LeftSafe(p, e) ==> level <= d) &&
    (Decided(p) && !ZeroTag(p, e) ==> level >= if e.Call? then d + 1 else d)
  }

  ghost predicate WfProg(p: Prog) {
    PrefixFree(1000, p.names) &&
    forall f :: f in p.fns ==>
      WfFn(p, p.fns[f]) && (f in p.clean ==> CleanFn(p, p.fns[f])) && (f in p.zero ==> ZeroFn(p, p.fns[f]))
  }

  /** How many braces deep a statement list nests. */
  function Nest(ss: seq<Stmt>): (n: nat)
    decreases ss, 0
  {
    if ss == [] then 0 else Larger(NestOne(ss[0]), Nest(ss[1..]))
  }

  function NestOne(s: Stmt): (n: nat)
    decreases s, 1
  {
    match s
    case If(_, yes) => 1 + Nest(yes)
    case IfElse(_, yes, no) => 1 + Larger(Nest(yes), Nest(no))
    case While(_, body) => 1 + Nest(body)
    case _ => 0
  }

  function Larger(a: nat, b: nat): (r: nat) {
    if a < b then b else a
  }
}
