/** The expression and statement trees of the language, and the code each of them is emitted as. */
module Syntax {
  import opened Bytes
  import opened Bytecode
  import opened Values

  datatype Expr =
    | Number(token: seq<Byte>)
    | Quoted(text: seq<Byte>)
    | Void
    | Ref(x: Name)
    | Bin(op: BinOp, l: Expr, r: Expr)
    | Not(e: Expr)
    | Minus(e: Expr)
    | Bump(up: bool, e: Expr)
    | Assign(l: Expr, r: Expr)
    | Call(f: Name, args: seq<Expr>)
    | Foreign(lib: Name, fn: Name, args: seq<Expr>)
    | Print(e: Expr)
    | Microtime
    | Access(x: Name, index: Expr)
    | SetElem(x: Name, index: Expr, v: Expr)
    | AddElem(x: Name, v: Expr)

  datatype Stmt =
    | Declare(x: Name)
    | Define(x: Name, e: Expr)
    | Eval(e: Expr)
    | If(c: Expr, yes: seq<Stmt>)
    | IfElse(c: Expr, yes: seq<Stmt>, no: seq<Stmt>)
    | While(c: Expr, body: seq<Stmt>)

  datatype Fn = Fn(params: seq<Name>, body: seq<Stmt>, ret: Option<Expr>)

  function OpCode(op: BinOp): (c: Byte) {
    match op
    case Or => OR
    case And => AND
    case Eq => CMP
    case Ne => CMP_NOT
    case Lt => LESS
    case Le => LESS_EQ
    case Gt => MORE
    case Ge => MORE_EQ
    case Add => ADD
    case Sub => SUB
    case Mul => MUL
    case Div => DIV
    case Mod => MOD
    case Pow => POW
  }

  /** Postfix code of an expression, in the order core/expression.c emits it. */
  function Compile(h: Host, e: Expr): (ins: seq<Instr>)
    decreases e, 1
  {
    match e
    case Number(t) => [Dbl(h.strtod(t))]
    case Quoted(t) => [Text(AS_STRING, t)]
    case Void => [Op(AS_VOID)]
    case Ref(x) => [Tok(AS_VAR, x)]
    case Bin(op, l, r) => Compile(h, l) + Compile(h, r) + [Op(OpCode(op))]
    case Not(a) => Compile(h, a) + [Op(INVERT)]
    case Minus(a) => Compile(h, a) + [Op(UNARY_MINUS)]
    case Bump(up, a) => Compile(h, a) + [Op(if up then INCR else DECR)]
    case Assign(l, r) => Compile(h, l) + Compile(h, r) + [Op(SET)]
    case Call(f, args) => CompileArgs(h, args) + CallCode(|args|, f)
    case Foreign(lib, fn, args) => CompileArgs(h, args) + [Xcall(lib, fn, |args| % 256)]
    case Print(a) => Compile(h, a) + [Op(PRINT)]
    case Microtime => [Op(MICROTIME)]
    case Access(x, i) => Compile(h, i) + [Tok(ACCESS, x)]
    case SetElem(x, i, v) => Compile(h, i) + Compile(h, v) + [Tok(SET_ELEM, x)]
    case AddElem(x, v) => Compile(h, v) + [Tok(ADD_ELEM, x)]
  }

  /** Without arguments the count byte 0 is emitted alone, and is an IDLE instruction. */
  function CallCode(n: nat, f: Name): (ins: seq<Instr>) {
    [if n > 0 then Rev(n % 256) else Op(IDLE), Tok(CALL, f)]
  }

  function CompileArgs(h: Host, args: seq<Expr>): (ins: seq<Instr>)
    decreases args, 0
  {
    if args == [] then [] else Compile(h, args[0]) + CompileArgs(h, args[1..])
  }

  function Braced(ins: seq<Instr>): (r: seq<Instr>) {
    [Op(BLOCK_START)] + ins + [Op(BLOCK_END)]
  }

  /** A condition stands between its opening instruction and CEIT. */
  function Guard(h: Host, op: Byte, c: Expr): (ins: seq<Instr>) {
    [Op(op)] + Compile(h, c) + [Op(CEIT)]
  }

  function CompileStmt(h: Host, s: Stmt): (ins: seq<Instr>)
    decreases s, 1
  {
    match s
    case Declare(x) => [Tok(VAR, x)]
    case Define(x, e) => Compile(h, e) + [Tok(VARX, x)]
    case Eval(e) => Compile(h, e)
    case If(c, yes) => Guard(h, IF, c) + Braced(CompileStmts(h, yes))
    case IfElse(c, yes, no) =>
      Guard(h, IF, c) + Braced(CompileStmts(h, yes)) + ([Op(ELSE)] + Braced(CompileStmts(h, no)))
    case While(c, body) => Guard(h, WHILE, c) + Braced(CompileStmts(h, body))
  }

  function CompileStmts(h: Host, ss: seq<Stmt>): (ins: seq<Instr>)
    decreases ss, 0
  {
    if ss == [] then [] else CompileStmt(h, ss[0]) + CompileStmts(h, ss[1..])
  }

  function ParamCode(params: seq<Name>): (ins: seq<Instr>) {
    if params == [] then [] else [Tok(PARAM, params[0])] + ParamCode(params[1..])
  }

  function ReturnCode(h: Host, ret: Option<Expr>): (ins: seq<Instr>) {
    match ret
    case None => []
    case Some(e) => [Op(CLEAR_STACK)] + Compile(h, e) + [Op(RETURN)]
  }

  function FnCode(h: Host, f: Fn): (ins: seq<Instr>) {
    Braced(ParamCode(f.params) + CompileStmts(h, f.body) + ReturnCode(h, f.ret))
  }

  function DefCode(h: Host, name: Name, f: Fn): (ins: seq<Instr>) {
    [Tok(BLOCK_DEF, name)] + FnCode(h, f)
  }
}
