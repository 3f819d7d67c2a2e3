/** core/bytecode.c in its own form: a byte buffer that grows by a fixed amount when an item might not fit. */
module Emitter {
  import opened Bytes
  import opened Bytecode

  const INITIAL_SIZE := 25000
  const GROW_SIZE := 10000

  /** bc_pos and bc_length are 32-bit unsigned numbers. */
  const LIMIT := 0x1_0000_0000

  /** bc_length - n in 32-bit unsigned arithmetic. */
  function Difference(length: nat, n: nat): (r: nat) {
    (length - n) % LIMIT
  }

  class Buffer {
    var bytecode: array<Byte>
    var bcPos: nat
    var bcLength: nat

    /** bc_init */
    constructor ()
      ensures Valid() && Contents() == [] && bcLength == INITIAL_SIZE && fresh(bytecode)
    {
      bytecode := new Byte[INITIAL_SIZE];
      bcPos, bcLength := 0, INITIAL_SIZE;
    }

    ghost predicate Valid()
      reads this
    {
      bcPos <= bcLength == bytecode.Length && INITIAL_SIZE <= bcLength < LIMIT
    }

    ghost function Contents(): (s: seq<Byte>)
      requires Valid()
      reads this, bytecode
    {
      bytecode[..bcPos]
    }

    /** There is room for one more growth below the limit of the counters. */
    ghost predicate Roomy(n: nat)
      reads this
    {
      bcLength + n * GROW_SIZE < LIMIT
    }

    /** The buffer has grown no further than its contents ask for. */
    ghost predicate Snug()
      reads this
    {
      bcLength <= INITIAL_SIZE || bcLength <= bcPos + GROW_SIZE
    }

    /** bc_grow: realloc keeps the contents. */
    method Grow()
      requires Valid() && Roomy(1)
      modifies this
      ensures Valid() && bcLength == old(bcLength) + GROW_SIZE && bcPos == old(bcPos)
      ensures Contents() == old(Contents()) && fresh(bytecode)
    {
      bcLength := bcLength + GROW_SIZE;
      var bigger := new Byte[bcLength];
      forall i | 0 <= i < bcPos {
        bigger[i] := bytecode[i];
      }
      bytecode := bigger;
    }

    /** bc_add_cmd */
    method AddCmd(cmd: Byte)
      requires Valid() && Roomy(1)
      modifies this, bytecode
      ensures Valid() && Contents() == old(Contents()) + [cmd]
      ensures bcLength <= old(bcLength) + GROW_SIZE && (bytecode == old(bytecode) || fresh(bytecode))
      ensures old(Snug()) ==> Snug()
    {
      if bcPos >= bcLength {
        Grow();
      }
      bytecode[bcPos] := cmd;
      bcPos := bcPos + 1;
    }

    /** memcpy to bc_pos and beyond; refused if it would leave the buffer. */
    method Copy(bytes: seq<Byte>) returns (inside: bool)
      requires Valid()
      modifies this`bcPos, bytecode
      ensures Valid() && inside == (old(bcPos) + |bytes| <= bcLength)
      ensures inside ==> Contents() == old(Contents()) + bytes
      ensures !inside ==> Contents() == old(Contents())
    {
      if bcPos + |bytes| > bcLength {
        return false;
      }
      var k := 0;
      while k < |bytes|
        modifies bytecode
        invariant 0 <= k <= |bytes|
        invariant bytecode[..bcPos] == old(bytecode[..bcPos]) && bytecode[bcPos..bcPos + k] == bytes[..k]
      {
        bytecode[bcPos + k] := bytes[k];
        k := k + 1;
      }
      assert bytecode[..bcPos + |bytes|] == bytecode[..bcPos] + bytecode[bcPos..bcPos + |bytes|];
      bcPos := bcPos + |bytes|;
      return true;
    }

    /** Grow at most once, then write: the write stays inside the buffer exactly when the item is not longer
        than the whole buffer and fits behind one growth. */
    method AddItem(bytes: seq<Byte>) returns (inside: bool)
      requires Valid() && Roomy(1) && |bytes| < 0x2_0000
      modifies this, bytecode
      ensures Valid()
      ensures inside == (|bytes| <= old(bcLength) && old(bcPos) + |bytes| <= old(bcLength) + GROW_SIZE)
      ensures inside ==> Contents() == old(Contents()) + bytes
      ensures bcLength <= old(bcLength) + GROW_SIZE && (bytecode == old(bytecode) || fresh(bytecode))
      ensures old(Snug()) && inside ==> Snug()
    {
      if bcPos >= Difference(bcLength, |bytes|) {
        Grow();
      }
      inside := Copy(bytes);
    }

    /** bc_add_token */
    method AddToken(token: Name) returns (inside: bool)
      requires Valid() && Roomy(1) && |token| < 0x1_0000 - 1
      modifies this, bytecode
      ensures Valid()
      ensures inside == (|token| + 1 <= old(bcLength) && old(bcPos) + |token| + 1 <= old(bcLength) + GROW_SIZE)
      ensures inside ==> Contents() == old(Contents()) + TokenBytes(token)
      ensures bcLength <= old(bcLength) + GROW_SIZE && (bytecode == old(bytecode) || fresh(bytecode))
      ensures old(Snug()) && inside ==> Snug()
    {
      inside := AddItem([|token| % 256] + token);
    }

    /** bc_add_double */
    method AddDouble(x: Double)
      requires Valid() && Roomy(1)
      modifies this, bytecode
      ensures Valid() && Contents() == old(Contents()) + x
      ensures bcLength <= old(bcLength) + GROW_SIZE && (bytecode == old(bytecode) || fresh(bytecode))
      ensures old(Snug()) ==> Snug()
    {
      var inside := AddItem(x);
      assert inside;
    }

    /** bc_add_string: the length is cut to sixteen bits, and so are the bytes. */
    method AddString(text: seq<Byte>) returns (inside: bool)
      requires Valid() && Roomy(1)
      modifies this, bytecode
      ensures Valid()
      ensures var n := |text| % 65536 + 2;
              inside == (n <= old(bcLength) && old(bcPos) + n <= old(bcLength) + GROW_SIZE)
      ensures inside ==> Contents() == old(Contents()) + TextBytes(text)
      ensures bcLength <= old(bcLength) + GROW_SIZE && (bytecode == old(bytecode) || fresh(bytecode))
      ensures old(Snug()) && inside ==> Snug()
    {
      var size := |text| % 65536;
      inside := AddItem([size % 256, size / 256] + text[..size]);
    }

    // ----- instructions -----

    /** What the emitter can take for granted of an instruction: its operands are encodable, and no longer
        than one growth. */
    static predicate Small(i: Instr) {
      Encodable(i) && (i.Text? ==> |i.text| <= GROW_SIZE - 2)
    }

    method EmitXcall(l: Name, f: Name, n: Byte)
      requires Valid() && Roomy(4) && |l| < 256 && |f| < 256
      modifies this, bytecode
      ensures Valid() && Contents() == old(Contents()) + [XCALL] + TokenBytes(l) + TokenBytes(f) + [n]
      ensures bcLength <= old(bcLength) + 4 * GROW_SIZE && (bytecode == old(bytecode) || fresh(bytecode))
      ensures old(Snug()) ==> Snug()
    {
      hide TokenBytes;
      AddCmd(XCALL);
      var inside := AddToken(l);
      inside := AddToken(f);
      AddCmd(n);
    }

    method EmitTok(c: Byte, t: Name)
      requires Valid() && Roomy(4) && |t| < 256
      modifies this, bytecode
      ensures Valid() && Contents() == old(Contents()) + [c] + TokenBytes(t)
      ensures bcLength <= old(bcLength) + 4 * GROW_SIZE && (bytecode == old(bytecode) || fresh(bytecode))
      ensures old(Snug()) ==> Snug()
    {
      hide TokenBytes;
      AddCmd(c);
      var inside := AddToken(t);
    }

    method EmitText(c: Byte, t: seq<Byte>)
      requires Valid() && Roomy(4) && |t| <= GROW_SIZE - 2
      modifies this, bytecode
      ensures Valid() && Contents() == old(Contents()) + [c] + TextBytes(t)
      ensures bcLength <= old(bcLength) + 4 * GROW_SIZE && (bytecode == old(bytecode) || fresh(bytecode))
      ensures old(Snug()) ==> Snug()
    {
      hide TextBytes;
      AddCmd(c);
      var inside := AddString(t);
    }

    method EmitDouble(x: Double)
      requires Valid() && Roomy(4)
      modifies this, bytecode
      ensures Valid() && Contents() == old(Contents()) + [AS_DOUBLE] + x
      ensures bcLength <= old(bcLength) + 4 * GROW_SIZE && (bytecode == old(bytecode) || fresh(bytecode))
      ensures old(Snug()) ==> Snug()
    {
      AddCmd(AS_DOUBLE);
      AddDouble(x);
    }

    method EmitCount(n: Byte)
      requires Valid() && Roomy(4)
      modifies this, bytecode
      ensures Valid() && Contents() == old(Contents()) + [REVERSE_STACK, n]
      ensures bcLength <= old(bcLength) + 4 * GROW_SIZE && (bytecode == old(bytecode) || fresh(bytecode))
      ensures old(Snug()) ==> Snug()
    {
      AddCmd(REVERSE_STACK);
      AddCmd(n);
    }

    /** One instruction: an opcode, then its operands. */
    method Emit(i: Instr)
      requires Valid() && Roomy(4) && Small(i)
      modifies this, bytecode
      ensures Valid() && Contents() == old(Contents()) + Encode(i)
      ensures bcLength <= old(bcLength) + 4 * GROW_SIZE && (bytecode == old(bytecode) || fresh(bytecode))
      ensures old(Snug()) ==> Snug()
    {
      hide TokenBytes, TextBytes;
      ghost var before := Contents();
      match i {
        case Op(c) => AddCmd(c);
        case Tok(c, t) =>
          EmitTok(c, t);
          assert before + ([c] + TokenBytes(t)) == before + [c] + TokenBytes(t);
        case Dbl(b) =>
          EmitDouble(b);
          assert before + ([AS_DOUBLE] + b) == before + [AS_DOUBLE] + b;
        case Text(c, t) =>
          EmitText(c, t);
          assert before + ([c] + TextBytes(t)) == before + [c] + TextBytes(t);
        case Rev(n) =>
          EmitCount(n);
        case Xcall(l, f, n) =>
          EmitXcall(l, f, n);
          assert before + ([XCALL] + TokenBytes(l) + TokenBytes(f) + [n]) ==
                 before + [XCALL] + TokenBytes(l) + TokenBytes(f) + [n];
      }
    }

    /** bc_ready: one more byte, which is IDLE, and the position back at the start. */
    method Ready()
      requires Valid()
      modifies this
      ensures bytecode[..] == old(Contents()) + [IDLE] && bcPos == 0 && bcLength == bytecode.Length && fresh(bytecode)
    {
      bcLength := bcPos + 1;
      var exact := new Byte[bcLength];
      forall i | 0 <= i < bcPos {
        exact[i] := bytecode[i];
      }
      exact[bcPos] := IDLE;
      bytecode := exact;
      assert bytecode[..] == old(Contents()) + [IDLE];
      bcPos := 0;
    }
  }

  /** A list of instructions goes into a fresh buffer and reads back from it as the same list. */
  method EmitAll(ins: seq<Instr>) returns (b: Buffer)
    requires (forall i :: i in ins ==> Buffer.Small(i)) && INITIAL_SIZE + |Flatten(ins)| + 5 * GROW_SIZE < LIMIT
    ensures b.bytecode[..] == Flatten(ins) + [IDLE]
    ensures Has(b.bytecode[..], 0, ins) && Len(ins) + 1 == b.bytecode.Length
  {
    hide Encode, Flatten, Has, Len;
    b := new Buffer();
    var k := 0;
    FlattenNone();
    assert ins[..0] == [];
    while k < |ins|
      invariant 0 <= k <= |ins| && b.Valid() && fresh(b) && fresh(b.bytecode)
      invariant b.Snug() && b.Contents() == Flatten(ins[..k])
    {
      FlattenMore(ins, k);
      FlattenShorter(ins, k);
      b.Emit(ins[k]);
      k := k + 1;
    }
    assert ins[..k] == ins;
    b.Ready();
    FlattenHas(b.bytecode[..], 0, ins);
  }

  lemma FlattenNone()
    ensures Flatten([]) == []
  {
  }

  lemma FlattenMore(ins: seq<Instr>, k: nat)
    requires k < |ins|
    ensures Flatten(ins[..k + 1]) == Flatten(ins[..k]) + Encode(ins[k])
  {
    hide Encode;
    assert ins[..k + 1] == ins[..k] + [ins[k]];
    FlattenConcat(ins[..k], [ins[k]]);
    assert [ins[k]][1..] == [];
    assert Flatten([ins[k]]) == Encode(ins[k]) + Flatten([]);
  }

  lemma FlattenShorter(ins: seq<Instr>, k: nat)
    requires k <= |ins|
    ensures |Flatten(ins[..k])| <= |Flatten(ins)|
  {
    hide Flatten;
    FlattenConcat(ins[..k], ins[k..]);
    assert ins[..k] + ins[k..] == ins;
  }
}
