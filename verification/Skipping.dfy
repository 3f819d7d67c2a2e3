/** Skip mode: how the machine passes over code it must not execute (core/larva_silk.c:42-50, 407-428). */
module Skipping {
  import opened Bytes
  import opened Bytecode
  import opened Values
  import opened Machine

  /** Counts braces over a list that starts at depth k; None if it closes the outermost brace,
      nests deeper than the one-byte counter, or holds the instruction that ignores skip mode. */
  function Scan(ins: seq<Instr>, k: nat): (r: Option<nat>)
    decreases |ins|
  {
    if k == 0 || k > 255 then None
    else if ins == [] then Some(k)
    else if ins[0] == Op(BLOCK_START) then Scan(ins[1..], k + 1)
    else if ins[0] == Op(BLOCK_END) then Scan(ins[1..], k - 1)
    else if ins[0].Tok? && ins[0].code == ADD_ELEM then None
    else Scan(ins[1..], k)
  }

  /** Braces match, and depth d below the surrounding brace is never exceeded. */
  ghost predicate Balanced(ins: seq<Instr>, d: nat) {
    forall k {:trigger Scan(ins, k)} :: 1 <= k && k + d <= 255 ==> Scan(ins, k) == Some(k)
  }

  lemma {:induction false} ScanConcat(a: seq<Instr>, b: seq<Instr>, k: nat)
    ensures Scan(a + b, k) == match Scan(a, k) case None => None case Some(j) => Scan(b, j)
    decreases |a|
  {
    if a == [] {
      assert a + b == b;
    } else if 0 < k <= 255 {
      assert (a + b)[0] == a[0] && (a + b)[1..] == a[1..] + b;
      ScanConcat(a[1..], b, k + 1);
      ScanConcat(a[1..], b, k - 1);
      ScanConcat(a[1..], b, k);
    }
  }

  /** The state after passing some block ends. */
  function Ended(s: State, ends: bool): (r: State) {
    match s.parentBlock
    case Some(b) => if ends && s.defMode then s.(parentBlock := b.parent, defMode := false) else s
    case None => s
  }

  function HasEnd(ins: seq<Instr>): (b: bool) {
    Op(BLOCK_END) in ins
  }

  lemma SkipOne(h: Host, s: State, i: Instr)
    requires !s.fault.Some? && s.skip && Has(s.code, s.pc, [i])
    requires i != Op(BLOCK_START) && i != Op(BLOCK_END) && !(i.Tok? && i.code == ADD_ELEM)
    ensures !Halted(s) && Step(h, s) == s.(pc := s.pc + Size(i))
  {
    HasOne(s.code, s.pc, i);
  }

  lemma SkipBrace(h: Host, s: State, i: Instr)
    requires !s.fault.Some? && s.skip && Has(s.code, s.pc, [i])
    requires s.defMode && i == Op(BLOCK_END) ==> s.parentBlock.Some?
    requires i == Op(BLOCK_START) || i == Op(BLOCK_END)
    ensures !Halted(s)
    ensures i == Op(BLOCK_START) ==> Step(h, s) == s.(pc := s.pc + 1, level := Inc(s.level))
    ensures i == Op(BLOCK_END) ==>
              Step(h, s) == Ended(s, true).(pc := s.pc + 1, level := Dec(s.level), skip := Dec(s.level) != 0)
  {
    HasOne(s.code, s.pc, i);
  }

  /** Skipping a list takes one dispatch an instruction and changes the position and the depth only. */
  lemma {:induction false} SkipList(h: Host, s: State, ins: seq<Instr>, k: nat)
    requires !s.fault.Some? && s.skip && Has(s.code, s.pc, ins)
    requires s.defMode ==> s.parentBlock.Some?
    requires Scan(ins, s.level) == Some(k)
    ensures k < 256
    ensures Run(h, s, |ins|) == Ended(s, HasEnd(ins)).(pc := s.pc + Len(ins), level := k)
    decreases |ins|
  {
    hide Step, Decode, Encode;
    if ins != [] {
      var i, rest := ins[0], ins[1..];
      assert ins == [i] + rest;
      HasConcat(s.code, s.pc, [i], rest);
      assert Len([i]) == Size(i);
      if i == Op(BLOCK_START) || i == Op(BLOCK_END) {
        SkipBrace(h, s, i);
        assert Size(i) == 1;
      } else {
        SkipOne(h, s, i);
      }
      var t := Step(h, s);
      SkipList(h, t, rest, k);
      assert HasEnd(ins) <==> i == Op(BLOCK_END) || HasEnd(rest);
    }
  }

  /** From skip mode before an opening brace, the machine stops skipping exactly one byte behind the
      matching closing brace; nothing but the position and the end of a definition has changed. */
  lemma SkipExactly(h: Host, s: State, body: seq<Instr>, d: nat)
    requires !s.fault.Some? && s.skip && s.level == 0
    requires s.defMode ==> s.parentBlock.Some?
    requires d < 255 && Balanced(body, d)
    requires Has(s.code, s.pc, [Op(BLOCK_START)] + body + [Op(BLOCK_END)])
    ensures Run(h, s, |body| + 2) ==
            Ended(s, true).(pc := s.pc + Len([Op(BLOCK_START)] + body + [Op(BLOCK_END)]), skip := false)
  {
    hide Step, Decode, Encode;
    var open, close := [Op(BLOCK_START)], [Op(BLOCK_END)];
    HasConcat(s.code, s.pc, open + body, close);
    HasConcat(s.code, s.pc, open, body);
    assert Len(open) == Size(Op(BLOCK_START)) == 1 && Len(close) == Size(Op(BLOCK_END)) == 1;
    SkipBrace(h, s, Op(BLOCK_START));
    var s1 := Step(h, s);
    assert Run(h, s, 1) == Run(h, s1, 0) == s1;
    assert Scan(body, 1) == Some(1);
    SkipList(h, s1, body, 1);
    var s2 := Run(h, s1, |body|);
    SkipBrace(h, s2, Op(BLOCK_END));
    var s3 := Step(h, s2);
    assert Run(h, s2, 1) == Run(h, s3, 0) == s3;
    RunAdd(h, s, 1, |body|);
    RunAdd(h, s, 1 + |body|, 1);
  }
}
