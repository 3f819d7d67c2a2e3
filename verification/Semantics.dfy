/** What a program means, by recursion over its trees: no code, no stack, no jumps. */
module Semantics {
  import opened Bytes
  import opened Values
  import opened Syntax

  datatype World = World(vars: map<Name, Value>, out: seq<Value>)

  /** The result of an expression, and the variable it can be assigned or counted through. */
  datatype Item = Item(v: Value, from: Option<Name>)

  /** Spent: the fuel did not suffice. Unspecified: the level counter of the machine would overflow,
      or the tree uses a form (arrays, maps, the clock) that has no meaning here. */
  datatype Outcome<+T> = Done(value: T, w: World) | Fail(f: Fault) | Spent | Unspecified {
    predicate IsFailure() {
      !Done?
    }

    function PropagateFailure<U>(): Outcome<U>
      requires !Done?
    {
      match this
      case Fail(f) => Fail(f)
      case Spent => Spent
      case Unspecified => Unspecified
    }

    function Extract(): (T, World)
      requires Done?
    {
      (value, w)
    }
  }

  function Bind(params: seq<Name>, vals: seq<Value>, vars: map<Name, Value>): (r: map<Name, Value>) {
    if params == [] || vals == [] then vars else Bind(params[1..], vals[1..], vars[params[0] := vals[0]])
  }

  function FromResult(r: Result<Value>, from: Option<Name>, w: World): (o: Outcome<Item>) {
    match r
    case Err(f) => Fail(f)
    case Ok(v) => Done(Item(v, from), w)
  }

  function BumpItem(h: Host, up: bool, i: Item, w: World): (o: Outcome<Item>) {
    match Values.Bump(h, up, i.v)
    case Err(f) => Fail(f)
    case Ok(v) =>
      match i.from
      case None => Done(Item(v, None), w)
      case Some(x) =>
        if x in w.vars && w.vars[x].Num? then Done(Item(v, i.from), w.(vars := w.vars[x := v])) else Fail(Undefined)
  }

  function AssignItem(l: Item, r: Item, w: World): (o: Outcome<Item>) {
    match l.from
    case None => Fail(RuntimeError)
    case Some(x) => if x in w.vars then Done(l, w.(vars := w.vars[x := r.v])) else Fail(Undefined)
  }

  /** d is the nesting level; fuel bounds calls and loop rounds. */
  function Evaluate(h: Host, fns: map<Name, Fn>, e: Expr, w: World, d: nat, fuel: nat): (o: Outcome<Item>)
    decreases fuel, e, 1
  {
    match e
    case Number(t) => Done(Item(Num(h.strtod(t)), None), w)
    case Quoted(t) => Done(Item(Str(t), None), w)
    case Void => Done(Item(Unset, None), w)
    case Ref(x) => if x in w.vars then Done(Item(w.vars[x], Some(x)), w) else Fail(RuntimeError)
    case Bin(op, l, r) =>
      var (a, w1) :- Evaluate(h, fns, l, w, d, fuel);
      var (b, w2) :- Evaluate(h, fns, r, w1, d, fuel);
      FromResult(Apply(h, op, a.v, b.v), if Fresh(op) then None else a.from, w2)
    case Not(a) =>
      var (i, w1) :- Evaluate(h, fns, a, w, d, fuel);
      FromResult(Invert(h, i.v), i.from, w1)
    case Minus(a) =>
      var (i, w1) :- Evaluate(h, fns, a, w, d, fuel);
      FromResult(Negate(h, i.v), i.from, w1)
    case Bump(up, a) =>
      var (i, w1) :- Evaluate(h, fns, a, w, d, fuel);
      BumpItem(h, up, i, w1)
    case Assign(l, r) =>
      var (a, w1) :- Evaluate(h, fns, l, w, d, fuel);
      var (b, w2) :- Evaluate(h, fns, r, w1, d, fuel);
      AssignItem(a, b, w2)
    case Call(f, args) =>
      var (vals, w1) :- EvaluateArgs(h, fns, args, w, d, fuel);
      if f !in fns then Fail(RuntimeError)
      else if d + 1 > 255 then Unspecified
      else if fuel == 0 then Spent
      else Invoke(h, fns, fns[f], vals, w1, d + 1, fuel - 1)
    case Foreign(lib, fn, args) =>
      var (vals, w1) :- EvaluateArgs(h, fns, args, w, d, fuel);
      FromResult(h.foreign(lib, fn, vals), None, w1)
    case _ => Unspecified
  }

  function EvaluateArgs(h: Host, fns: map<Name, Fn>, args: seq<Expr>, w: World, d: nat, fuel: nat)
    : (o: Outcome<seq<Value>>)
    decreases fuel, args, 0
  {
    if args == [] then Done([], w)
    else
      var (i, w1) :- Evaluate(h, fns, args[0], w, d, fuel);
      var (vs, w2) :- EvaluateArgs(h, fns, args[1..], w1, d, fuel);
      Done([i.v] + vs, w2)
  }

  /** Parameters are ordinary variables: there is one store. A block without `return` yields 0. */
  function Invoke(h: Host, fns: map<Name, Fn>, f: Fn, vals: seq<Value>, w: World, d: nat, fuel: nat)
    : (o: Outcome<Item>)
    decreases fuel, f, 2
  {
    var (_, w1) :- ExecuteAll(h, fns, f.body, w.(vars := Bind(f.params, vals, w.vars)), d, fuel);
    match f.ret
    case None => Done(Item(Num(h.zero), None), w1)
    case Some(e) =>
      var (i, w2) :- Evaluate(h, fns, e, w1, d, fuel);
      Done(Item(i.v, None), w2)
  }

  /** A condition is evaluated one level further in. */
  function Choose(h: Host, fns: map<Name, Fn>, c: Expr, w: World, d: nat, fuel: nat): (o: Outcome<bool>)
    decreases fuel, c, 2
  {
    if d + 1 > 255 then Unspecified
    else
      var (i, w1) :- Evaluate(h, fns, c, w, d + 1, fuel);
      Done(Truth(h, i.v), w1)
  }

  function Execute(h: Host, fns: map<Name, Fn>, s: Stmt, w: World, d: nat, fuel: nat): (o: Outcome<()>)
    decreases fuel, s, 1
  {
    match s
    case Declare(x) => Done((), if x in w.vars then w else w.(vars := w.vars[x := Null]))
    case Define(x, e) =>
      var (i, w1) :- Evaluate(h, fns, e, w, d, fuel);
      Done((), w1.(vars := w1.vars[x := i.v]))
    case Eval(Print(e)) =>
      var (i, w1) :- Evaluate(h, fns, e, w, d, fuel);
      Done((), w1.(out := w1.out + [i.v]))
    case Eval(e) =>
      var (_, w1) :- Evaluate(h, fns, e, w, d, fuel);
      Done((), w1)
    case If(c, yes) =>
      var (b, w1) :- Choose(h, fns, c, w, d, fuel);
      if b then ExecuteAll(h, fns, yes, w1, d + 1, fuel) else Done((), w1)
    case IfElse(c, yes, no) =>
      var (b, w1) :- Choose(h, fns, c, w, d, fuel);
      ExecuteAll(h, fns, if b then yes else no, w1, d + 1, fuel)
    case While(c, body) =>
      var (b, w1) :- Choose(h, fns, c, w, d, fuel);
      if !b then Done((), w1)
      else
        var (_, w2) :- ExecuteAll(h, fns, body, w1, d + 1, fuel);
        if fuel == 0 then Spent else Execute(h, fns, s, w2, d, fuel - 1)
  }

  function ExecuteAll(h: Host, fns: map<Name, Fn>, ss: seq<Stmt>, w: World, d: nat, fuel: nat): (o: Outcome<()>)
    decreases fuel, ss, 0
  {
    if ss == [] then Done((), w)
    else
      var (_, w1) :- Execute(h, fns, ss[0], w, d, fuel);
      ExecuteAll(h, fns, ss[1..], w1, d, fuel)
  }
}
