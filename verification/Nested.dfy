/** Blocks defined while a block runs: what no run forgets, and the name they can be called by. */
module Nested {
  import opened Bytes
  import opened Bytecode
  import opened Values
  import opened Tables
  import opened Machine
  import opened Syntax
  import opened Skipping
  import opened Steps
  import opened Operands
  import opened Program

  // ----- what a step does to the blocks -----

  /** The next dispatch executes a call. */
  predicate Calling(s: State) {
    !Halted(s) && !s.skip &&
    match Decode(s.code, s.pc)
    case None => false
    case Some((i, _)) => i.Tok? && i.code == CALL
  }

  /** Every block is recorded under the name it carries. */
  ghost predicate Named(s: State) {
    forall f :: f in s.blocks ==> s.blocks[f].name == f
  }

  /** The block one is in is never forgotten, and only a call changes it. */
  ghost predicate Remembers(s: State, t: State, called: bool) {
    (s.thisBlock.Some? ==> t.thisBlock.Some?) && (!called ==> t.thisBlock == s.thisBlock) && (Named(s) ==> Named(t))
  }

  lemma {:induction false} BlockStays(h: Host, s: State, n: nat)
    requires s.thisBlock.Some?
    ensures Run(h, s, n).thisBlock.Some?
    decreases n
  {
    hide Step, Named;
    if n > 0 && !Halted(s) {
      StepRemembers(h, s);
      BlockStays(h, Step(h, s), n - 1);
    }
  }

  /** Without another call, the block last called stays the one that definitions are named after. */
  lemma {:induction false} SameBlock(h: Host, s: State, n: nat)
    requires forall k: nat :: k < n ==> !Calling(Run(h, s, k))
    ensures Run(h, s, n).thisBlock == s.thisBlock
    decreases n
  {
    hide Step, Calling, Named;
    if n > 0 && !Halted(s) {
      assert Run(h, s, 0) == s;
      StepRemembers(h, s);
      forall k: nat | k < n - 1 ensures !Calling(Run(h, Step(h, s), k)) {
        assert Run(h, s, k + 1) == Run(h, Step(h, s), k);
      }
      SameBlock(h, Step(h, s), n - 1);
    }
  }

  lemma {:induction false} NamesStay(h: Host, s: State, n: nat)
    requires Named(s)
    ensures Named(Run(h, s, n))
    decreases n
  {
    hide Step, Named;
    if n > 0 && !Halted(s) {
      StepRemembers(h, s);
      NamesStay(h, Step(h, s), n - 1);
    }
  }

  lemma StepRemembers(h: Host, s: State)
    requires !Halted(s)
    ensures Remembers(s, Step(h, s), Calling(s))
  {
    hide Decode, Exec, SkipOver, LeaveDefinition, Named;
    var r := Decode(s.code, s.pc);
    if s.skip && s.code[s.pc] >= 32 {
      NamedAlike(s, Step(h, s));
    } else if r.None? {
      NamedAlike(s, Step(h, s));
    } else if s.skip {
      SkipRemembers(s, r.value.0, r.value.1);
      NamedAlike(s, Step(h, s));
    } else {
      ExecRemembers(h, s, r.value.0, r.value.1);
    }
  }

  lemma NamedAlike(s: State, t: State)
    requires s.blocks == t.blocks
    ensures Named(s) <==> Named(t)
  {
  }

  lemma SkipRemembers(s: State, i: Instr, next: nat)
    ensures SkipOver(s, i, next).thisBlock == s.thisBlock && SkipOver(s, i, next).blocks == s.blocks
  {
    hide LeaveDefinition;
    EndingRemembers(s.(pc := next));
  }

  lemma EndingRemembers(s: State)
    ensures LeaveDefinition(s).thisBlock == s.thisBlock && LeaveDefinition(s).blocks == s.blocks
  {
  }

  lemma ExecRemembers(h: Host, s: State, i: Instr, next: nat)
    ensures Remembers(s, Exec(h, s, i, next), i.Tok? && i.code == CALL)
  {
    hide ExecOp, ExecTok, CallForeign, Reversed, Named;
    var t := s.(pc := next);
    NamedAlike(s, t);
    if i.Tok? {
      TokRemembers(t, i.code, i.token);
    } else {
      if i.Op? { OpKeepsBlocks(h, t, i.code); }
      if i.Xcall? { ForeignKeepsBlocks(h, t, i.lib, i.fn, i.argc); }
      NamedAlike(s, Exec(h, s, i, next));
    }
  }

  lemma ForeignKeepsBlocks(h: Host, s: State, l: Name, f: Name, n: Byte)
    ensures var t := CallForeign(h, s, l, f, n); t.thisBlock == s.thisBlock && t.blocks == s.blocks
  {
  }

  lemma TokRemembers(s: State, c: Byte, x: Name)
    ensures Remembers(s, ExecTok(s, c, x), c == CALL)
  {
    hide Put, Tables.Declare, Lookup, LookupPrefix, Patched, QualifiedName;
  }

  lemma OpKeepsBlocks(h: Host, s: State, c: Byte)
    ensures ExecOp(h, s, c).thisBlock == s.thisBlock && ExecOp(h, s, c).blocks == s.blocks
  {
    hide OpOf, ExecStackOp, ExecControl, Apply;
    StackOpKeepsBlocks(h, s, c);
    ControlKeepsBlocks(h, s, c);
  }

  lemma StackOpKeepsBlocks(h: Host, s: State, c: Byte)
    ensures ExecStackOp(h, s, c).thisBlock == s.thisBlock && ExecStackOp(h, s, c).blocks == s.blocks
  {
    hide Put, Lookup, Invert, Negate, Values.Bump;
  }

  lemma ControlKeepsBlocks(h: Host, s: State, c: Byte)
    ensures ExecControl(h, s, c).thisBlock == s.thisBlock && ExecControl(h, s, c).blocks == s.blocks
  {
    hide Machine.Return, EndBlock, Truth, Cleared;
    ReturnKeepsBlocks(h, s);
    EndKeepsBlocks(h, s);
  }

  lemma EndKeepsBlocks(h: Host, s: State)
    ensures EndBlock(h, s).thisBlock == s.thisBlock && EndBlock(h, s).blocks == s.blocks
  {
    hide Cleared;
  }

  lemma ReturnKeepsBlocks(h: Host, s: State)
    ensures Machine.Return(h, s).thisBlock == s.thisBlock && Machine.Return(h, s).blocks == s.blocks
  {
    hide Cleared;
    var o := if s.stack == [] then Operand(Num(h.zero), None, 0) else Top(s).(from := None);
    var rest := if s.stack == [] then [] else Cleared(Dropped(s.stack, 1), s.gl);
    UnwoundKeepsBlocks(s.(stack := rest + [o]), 256);
  }

  lemma {:induction false} UnwoundKeepsBlocks(s: State, n: nat)
    ensures Unwound(s, n).thisBlock == s.thisBlock && Unwound(s, n).blocks == s.blocks
    decreases n
  {
    if s.runFlag[s.gl] != 0 && n > 0 {
      UnwoundKeepsBlocks(s.(pc := s.retPoint[s.gl], gl := Dec(s.gl)), n - 1);
    }
  }

  // ----- nested definitions -----

  /** In every run of any code: after a call of a block recorded as f, and whatever else runs as long as it is no
      call, the first definition of g makes f.g callable. A call of it goes right behind the definition, where
      the braced code of g stands. */
  lemma NestedDefinition(h: Host, emitted: seq<Byte>, k: nat, f: Name, m: nat, g: Name, body: seq<Instr>, d: nat)
    returns (n: nat)
    requires var s := Run(h, Start(emitted), k);
             s.fault.None? && !s.skip && f in s.blocks && Has(s.code, s.pc, [Tok(CALL, f)])
    requires m > 0 && forall i: nat :: k < i < k + m ==> !Calling(Run(h, Start(emitted), i))
    requires var t := Run(h, Start(emitted), k + m);
             t.fault.None? && !t.skip && t.level == 0 && !t.defMode && f + [46] + g !in t.blocks &&
             Has(t.code, t.pc, [Tok(BLOCK_DEF, g)]) && Has(t.code, t.pc + |g| + 2, Braced(body))
    requires d < 255 && Balanced(body, d)
    ensures n > k + m
    ensures var t, u := Run(h, Start(emitted), k + m), Run(h, Start(emitted), n);
            var v := EnterBlock(u, f + [46] + g);
            u.fault.None? && f + [46] + g in u.blocks && v.fault.None? && v.pc == t.pc + |g| + 2 &&
            Has(v.code, v.pc, Braced(body)) && v.thisBlock.Some? && v.thisBlock.value.name == f + [46] + g
  {
    hide Run, Has, Balanced, Calling, Named, Patched, Start;
    var s0 := Start(emitted);
    var s, t := Run(h, s0, k), Run(h, s0, k + m);
    StartNamed(emitted);
    NamesStay(h, s0, k);
    NamedAs(s, f);
    StepCall(h, s, f);
    RunAdd(h, s0, k, 1);
    RunAdd(h, s0, k + 1, m - 1);
    var s1 := Run(h, s0, k + 1);
    forall i: nat | i < m - 1 ensures !Calling(Run(h, s1, i)) {
      RunAdd(h, s0, k + 1, i);
    }
    SameBlock(h, s1, m - 1);
    assert QualifiedName(t, g) == f + [46] + g;
    var j := DefineOnce(h, t, g, body, d);
    RunAdd(h, s0, k + m, j);
    n := k + m + j;
    BodyStays(t.code, t.pc, g, Braced(body));
  }

  lemma NamedAs(s: State, f: Name)
    requires Named(s) && f in s.blocks
    ensures s.blocks[f].name == f
  {
  }

  lemma StartNamed(emitted: seq<Byte>)
    ensures Named(Start(emitted))
  {
  }

  lemma BodyStays(code: seq<Byte>, pc: nat, g: Name, ins: seq<Instr>)
    requires pc + |g| + 2 <= |code| && Has(code, pc + |g| + 2, ins)
    ensures Has(Patched(code, pc, |g|), pc + |g| + 2, ins)
  {
    hide Has;
    PatchedLocal(code, pc, |g|);
    HasLocal(code, Patched(code, pc, |g|), pc + |g| + 2, ins);
  }
}
