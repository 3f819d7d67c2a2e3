/** From source text to final variables and output: digestion, byte code and machine put together. */
module Interpreter {
  import opened Bytes
  import opened Bytecode
  import opened Values
  import opened Tables
  import opened Machine
  import opened Semantics
  import opened Fragment
  import opened Program
  import opened Digest
  import opened Chew
  import opened Files
  import opened Larva
  import opened Layout
  import opened Silk
  import opened Emitter

  ghost predicate Written(src: Source, p: Prog, y: Style) {
    WfStyle(y) && WritableSource(y, src) && WfSource(src, p)
  }

  /** What a final state has to do with a meaning. */
  ghost predicate Achieved(o: Outcome<()>, fault: Option<Fault>, vars: Vars, out: seq<Value>) {
    match o
    case Done(_, w) => fault.None? && out == w.out && Represents(vars, w.vars)
    case Fail(f) => fault == Some(f)
    case _ => true
  }

  /** The machine, started on the code of a program's text, does what the program means. */
  lemma TextRuns(h: Host, src: Source, p: Prog, y: Style, fuel: nat)
    returns (n: nat)
    requires Written(src, p, y) && |SourceText(y, src)| + 1 < 0x1_0000_0000_0000_0000
    ensures DigestText(h, SourceText(y, src)) == Ok(ProgramCode(h, src))
    ensures var t := Run(h, Start(Flatten(ProgramCode(h, src))), n);
            Achieved(Meaning(h, src, fuel), t.fault, t.vars, t.out) &&
            (Meaning(h, src, fuel).Done? ==> Halted(t) && t.gl == 0) &&
            (Meaning(h, src, fuel).Spent? ==> n >= fuel && !Halted(t))
  {
    hide Run, Meaning, DigestText, ProgramCode, Start, WfSource, WritableSource, SourceText, Represents;
    SourceRoundTrip(h, y, src);
    n := ProgramRuns(h, src, p, fuel);
  }

  function Compiled(h: Host, file: seq<Byte>): (r: Result<seq<Instr>>) {
    match Prepared(file)
    case Err(f) => Err(f)
    case Ok(text) => DigestText(h, text)
  }

  /** console.c: clean the file, search it for inclusions, digest it, run its code. */
  method Interpret(host: Host, file: seq<Byte>, ghost steps: nat)
    returns (fault: Option<Fault>, vars: Vars, out: seq<Value>)
    requires Compiled(host, file).Ok? ==> Halted(Run(host, Start(Flatten(Compiled(host, file).value)), steps))
    ensures Compiled(host, file).Err? ==> fault == Some(Compiled(host, file).fault)
    ensures Compiled(host, file).Ok? ==>
              var t := Run(host, Start(Flatten(Compiled(host, file).value)), steps);
              fault == t.fault && (fault.None? ==> vars == t.vars && out == t.out)
  {
    hide Run, Digested, Flatten, Chewed, Searched;
    vars, out := Tables.Empty(1000), [];
    var source := file;
    if |file| > 0 {
      source := file + [NUL];
    }
    var code, codeLength := LarvaChew(source);
    var text := code[..codeLength];
    if codeLength == 0 || code[codeLength - 1] != NUL {
      return Some(Undefined), vars, out;
    }
    var larva := new Digester(host, text[..codeLength - 1]);
    assert larva.code == text;
    larva.LarvaInit();
    if larva.fault.Some? {
      return larva.fault, vars, out;
    }
    larva.LarvaDigest();
    if larva.fault.Some? {
      return larva.fault, vars, out;
    }
    var vm := new Vm(host, larva.bytecode);
    vm.Execute(steps);
    fault, vars, out := vm.fault, vm.vars, vm.out;
  }

  /** The growing buffer holds the code that the machine is started on, if no text is too long for one growth. */
  method EmitCompiled(host: Host, file: seq<Byte>) returns (b: Buffer)
    requires Compiled(host, file).Ok?
    requires forall i :: i in Compiled(host, file).value ==> Buffer.Small(i)
    requires INITIAL_SIZE + |Flatten(Compiled(host, file).value)| + 5 * GROW_SIZE < LIMIT
    ensures b.bytecode[..] == Start(Flatten(Compiled(host, file).value)).code
    ensures Has(b.bytecode[..], 0, Compiled(host, file).value)
  {
    hide Compiled;
    b := EmitAll(Compiled(host, file).value);
  }

  /** Interpreting any file that is a program's text once it is clean, whatever its comments and escapes, ends
      with the variables and the output that the program means, unless the search stops at it. */
  method InterpretSource(host: Host, file: seq<Byte>, ghost src: Source, ghost p: Prog, ghost y: Style, ghost fuel: nat)
    returns (fault: Option<Fault>, vars: Vars, out: seq<Value>)
    requires Written(src, p, y) && |SourceText(y, src)| + 1 < 0x1_0000_0000_0000_0000
    requires Cleaned(file) == SourceText(y, src) + [NUL]
    requires Meaning(host, src, fuel).Done? || Meaning(host, src, fuel).Fail?
    ensures var stop := Searched(SourceText(y, src) + [NUL], 0);
            if stop.Some? then fault == stop else Achieved(Meaning(host, src, fuel), fault, vars, out)
  {
    hide Run, Meaning, DigestText, ProgramCode, Start, Written, Represents, SourceText, Cleaned, Searched;
    assert Cleaned(file)[..|Cleaned(file)| - 1] == SourceText(y, src);
    ghost var n := TextRuns(host, src, p, y, fuel);
    fault, vars, out := Interpret(host, file, n);
  }
}
