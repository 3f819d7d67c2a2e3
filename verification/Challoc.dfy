/** core/challoc.c: a chain of blocks, each with a stack of free chunks. */
module Challoc {
  /** The memory of one block; its address is its identity. */
  class Memory {
    constructor () {
    }
  }

  /** The address of the index-th chunk of a block's memory. */
  datatype Chunk = Chunk(memory: Memory, index: nat)

  class ChunkAllocator {
    const nChunks: nat
    const memory: Memory
    const chunks: array<Chunk>
    var currentChunk: nat
    var next: ChunkAllocator?

    /** chcreate: every chunk starts on the stack. */
    constructor (n: nat)
      ensures nChunks == n && chunks.Length == n && currentChunk == n && next == null
      ensures fresh(chunks) && fresh(memory) && chunks[..] == Fresh(memory, n)
    {
      nChunks := n;
      var m := new Memory();
      memory := m;
      chunks := new Chunk[n](i requires i >= 0 => Chunk(m, i));
      currentChunk := n;
      next := null;
    }
  }

  // ----- what the stacks hold, as values -----

  function Fresh(m: Memory, n: nat): (r: seq<Chunk>) {
    seq(n, i requires i >= 0 => Chunk(m, i))
  }

  function Sum(stacks: seq<seq<Chunk>>): (r: multiset<Chunk>) {
    if stacks == [] then multiset{} else multiset(stacks[0]) + Sum(stacks[1..])
  }

  function AllChunks(ms: seq<Memory>, n: nat): (r: seq<seq<Chunk>>)
    ensures |r| == |ms| && forall i :: 0 <= i < |ms| ==> r[i] == Fresh(ms[i], n)
  {
    if ms == [] then [] else [Fresh(ms[0], n)] + AllChunks(ms[1..], n)
  }

  lemma {:induction false} SumUpdate(stacks: seq<seq<Chunk>>, i: nat, t: seq<Chunk>)
    requires i < |stacks|
    ensures Sum(stacks[i := t]) + multiset(stacks[i]) == Sum(stacks) + multiset(t)
  {
    if i == 0 {
      assert stacks[0 := t][1..] == stacks[1..];
    } else {
      assert stacks[i := t][1..] == stacks[1..][i - 1 := t] && stacks[i := t][0] == stacks[0];
      SumUpdate(stacks[1..], i - 1, t);
      var a, b, m := Sum(stacks[1..][i - 1 := t]), Sum(stacks[1..]), multiset(stacks[0]);
      assert a + multiset(stacks[i]) == b + multiset(t);
      assert Sum(stacks[i := t]) == m + a && Sum(stacks) == m + b;
      assert m + a + multiset(stacks[i]) == m + (a + multiset(stacks[i]));
      assert m + b + multiset(t) == m + (b + multiset(t));
    }
  }

  lemma {:induction false} SumMore(stacks: seq<seq<Chunk>>, t: seq<Chunk>)
    ensures Sum(stacks + [t]) == Sum(stacks) + multiset(t)
  {
    if stacks == [] {
      assert (stacks + [t])[1..] == [];
    } else {
      assert (stacks + [t])[1..] == stacks[1..] + [t];
      SumMore(stacks[1..], t);
    }
  }

  lemma OneMore(k: nat, n: nat)
    ensures (k + 1) * n == k * n + n
  {
  }

  lemma {:induction false} SumSize(stacks: seq<seq<Chunk>>, n: nat)
    requires forall i :: 0 <= i < |stacks| ==> |stacks[i]| == n
    ensures |Sum(stacks)| == |stacks| * n
  {
    if stacks != [] {
      SumSize(stacks[1..], n);
      OneMore(|stacks| - 1, n);
    }
  }

  // ----- the chain -----

  function After(chain: seq<ChunkAllocator>, i: nat): (r: ChunkAllocator?) {
    if i + 1 < |chain| then chain[i + 1] else null
  }

  /** A block of the chain by itself: all blocks have the same number of chunks. */
  ghost predicate BlockOk(root: ChunkAllocator, block: ChunkAllocator)
    reads block
  {
    block.currentChunk <= block.nChunks == root.nChunks == block.chunks.Length
  }

  ghost predicate Linked(root: ChunkAllocator, chain: seq<ChunkAllocator>)
    reads chain
  {
    |chain| > 0 && chain[0] == root && root.nChunks > 0 &&
    (forall i {:trigger chain[i].next} :: 0 <= i < |chain| ==> chain[i].next == After(chain, i)) &&
    (forall i :: 0 <= i < |chain| ==> BlockOk(root, chain[i])) &&
    (forall i, j :: 0 <= i < j < |chain| ==>
       chain[i] != chain[j] && chain[i].chunks != chain[j].chunks && chain[i].memory != chain[j].memory)
  }

  ghost function Arrays(chain: seq<ChunkAllocator>): (r: set<array<Chunk>>) {
    set i | 0 <= i < |chain| :: chain[i].chunks
  }

  /** The free stacks from the bottom up, block by block. */
  ghost function Stacks(root: ChunkAllocator, chain: seq<ChunkAllocator>): (r: seq<seq<Chunk>>)
    requires Linked(root, chain)
    reads chain, Arrays(chain)
    ensures |r| == |chain|
  {
    seq(|chain|, i requires 0 <= i < |chain| && Linked(root, chain) reads chain, Arrays(chain) =>
      chain[i].chunks[..chain[i].currentChunk])
  }

  ghost function Memories(chain: seq<ChunkAllocator>): (r: seq<Memory>) {
    seq(|chain|, i requires 0 <= i < |chain| => chain[i].memory)
  }

  /** Every chunk of every block is either live or on exactly one free stack, once. */
  ghost predicate Partition(root: ChunkAllocator, chain: seq<ChunkAllocator>, live: multiset<Chunk>)
    reads chain, Arrays(chain)
  {
    Linked(root, chain) && Sum(Stacks(root, chain)) + live == Sum(AllChunks(Memories(chain), root.nChunks))
  }

  method FirstFreeOrLast(start: ChunkAllocator, ghost chain: seq<ChunkAllocator>)
    returns (iter: ChunkAllocator, ghost k: nat)
    requires Linked(start, chain)
    ensures k < |chain| && iter == chain[k] && forall i :: 0 <= i < k ==> chain[i].currentChunk == 0
    ensures iter.currentChunk > 0 || (iter.next == null && k == |chain| - 1)
  {
    iter, k := start, 0;
    while iter.currentChunk == 0 && iter.next != null
      invariant k < |chain| && iter == chain[k]
      invariant forall i :: 0 <= i < k ==> chain[i].currentChunk == 0
      decreases |chain| - k
    {
      iter := iter.next;
      k := k + 1;
    }
  }

  /** All stacks are empty, so another block is chained behind the last one. */
  method AppendBlock(start: ChunkAllocator, last: ChunkAllocator, ghost chain: seq<ChunkAllocator>)
    returns (block: ChunkAllocator)
    requires Linked(start, chain) && last == chain[|chain| - 1]
    modifies last`next
    ensures start.currentChunk == old(start.currentChunk)
    ensures fresh(block) && fresh(block.chunks) && fresh(block.memory) && Linked(start, chain + [block])
    ensures Stacks(start, chain + [block]) == old(Stacks(start, chain)) + [Fresh(block.memory, start.nChunks)]
    ensures block.currentChunk == start.nChunks
  {
    block := new ChunkAllocator(last.nChunks);
    last.next := block;
    assert forall i :: 0 <= i < |chain| ==> chain[i].chunks[..] == old(chain[i].chunks[..]);
    ghost var now, was := Stacks(start, chain + [block]), old(Stacks(start, chain));
    assert forall i :: 0 <= i < |chain| ==> now[i] == was[i];
    assert block.chunks[..block.currentChunk] == block.chunks[..];
    assert now[|chain|] == Fresh(block.memory, start.nChunks);
    assert now == was + [Fresh(block.memory, start.nChunks)];
  }

  /** get_first_allocator_with_free_chunk */
  method GetFirstAllocatorWithFreeChunk(start: ChunkAllocator, ghost chain: seq<ChunkAllocator>)
    returns (found: ChunkAllocator, ghost k: nat, ghost longer: seq<ChunkAllocator>)
    requires Linked(start, chain)
    modifies chain
    ensures k < |longer| && found == longer[k] && Linked(start, longer) && found.currentChunk > 0
    ensures start.currentChunk == old(start.currentChunk) && (k == 0 <==> start.currentChunk > 0)
    ensures longer == chain || (longer == chain + [found] && fresh(found) && fresh(found.chunks) && fresh(found.memory))
    ensures longer != chain ==> forall i :: 0 <= i < |chain| ==> old(chain[i].currentChunk) == 0
    ensures Stacks(start, longer) ==
            if longer == chain then old(Stacks(start, chain))
            else old(Stacks(start, chain)) + [Fresh(found.memory, start.nChunks)]
  {
    found, k := FirstFreeOrLast(start, chain);
    longer := chain;
    if found.currentChunk > 0 {
      return;
    }
    found := AppendBlock(start, found, chain);
    k, longer := |chain|, chain + [found];
  }

  /** Taking the top of a stack that is not empty. */
  method Take(root: ChunkAllocator, block: ChunkAllocator, ghost k: nat, ghost chain: seq<ChunkAllocator>)
    returns (p: Chunk)
    requires Linked(root, chain) && k < |chain| && block == chain[k] && block.currentChunk > 0
    modifies block`currentChunk
    ensures Linked(root, chain)
    ensures old(Stacks(root, chain))[k] == Stacks(root, chain)[k] + [p]
    ensures Stacks(root, chain) == old(Stacks(root, chain))[k := Stacks(root, chain)[k]]
  {
    block.currentChunk := block.currentChunk - 1;
    p := block.chunks[block.currentChunk];
    assert old(block.chunks[..block.currentChunk]) == block.chunks[..block.currentChunk] + [p];
    ghost var now, was := Stacks(root, chain), old(Stacks(root, chain));
    assert forall i :: 0 <= i < |chain| && i != k ==> now[i] == was[i];
    assert now == was[k := now[k]];
  }

  lemma MemoriesMore(chain: seq<ChunkAllocator>, block: ChunkAllocator)
    ensures Memories(chain + [block]) == Memories(chain) + [block.memory]
  {
  }

  lemma {:induction false} AllMore(ms: seq<Memory>, m: Memory, n: nat)
    ensures AllChunks(ms + [m], n) == AllChunks(ms, n) + [Fresh(m, n)]
  {
  }

  lemma TakeKeeps(was: seq<seq<Chunk>>, now: seq<seq<Chunk>>, k: nat, p: Chunk, live: multiset<Chunk>,
                  all: multiset<Chunk>)
    requires k < |was| == |now| && was[k] == now[k] + [p] && now == was[k := now[k]] && Sum(was) + live == all
    ensures Sum(now) + (live + multiset{p}) == all
  {
    SumUpdate(was, k, now[k]);
    var one, rest := multiset{p}, multiset(now[k]);
    assert multiset(was[k]) == rest + one;
    assert Sum(now) + one + rest == Sum(was) + rest;
    Cancel(Sum(now) + one, Sum(was), rest);
    assert Sum(now) + (live + one) == Sum(now) + one + live;
  }

  lemma Cancel(a: multiset<Chunk>, b: multiset<Chunk>, c: multiset<Chunk>)
    requires a + c == b + c
    ensures a == b
  {
    forall x ensures a[x] == b[x] {
      assert (a + c)[x] == a[x] + c[x] && (b + c)[x] == b[x] + c[x];
    }
  }

  /** challoc: the chunk returned was free, and nothing else changes hands. */
  method Challoc(root: ChunkAllocator, ghost chain: seq<ChunkAllocator>, ghost live: multiset<Chunk>)
    returns (p: Chunk, ghost longer: seq<ChunkAllocator>)
    requires Partition(root, chain, live)
    modifies chain
    ensures Partition(root, longer, live + multiset{p})
    ensures longer == chain || (exists b :: fresh(b) && longer == chain + [b])
    ensures longer != chain ==> forall i :: 0 <= i < |chain| ==> old(chain[i].currentChunk) == 0
    ensures root.currentChunk == if old(root.currentChunk) > 0 then old(root.currentChunk) - 1 else 0
  {
    var found;
    ghost var k;
    found, k, longer := GetFirstAllocatorWithFreeChunk(root, chain);
    ghost var was, n := Stacks(root, longer), root.nChunks;
    if longer != chain {
      MemoriesMore(chain, found);
      AllMore(Memories(chain), found.memory, n);
      SumMore(AllChunks(Memories(chain), n), Fresh(found.memory, n));
      SumMore(old(Stacks(root, chain)), Fresh(found.memory, n));
    }
    ghost var all := Sum(AllChunks(Memories(longer), n));
    assert Sum(was) + live == all;
    p := Take(root, found, k, longer);
    TakeKeeps(was, Stacks(root, longer), k, p, live, all);
  }

  /** push_chunk_to_first_free_stack, from a root whose own stack is empty: the root takes the chunk. */
  method PushChunkToFirstFreeStack(root: ChunkAllocator, p: Chunk, ghost chain: seq<ChunkAllocator>)
    requires Linked(root, chain) && root.currentChunk == 0
    modifies root`currentChunk, root.chunks
    ensures Linked(root, chain) && root.currentChunk == 1
    ensures Stacks(root, chain) == old(Stacks(root, chain))[0 := old(Stacks(root, chain))[0] + [p]]
  {
    var iter := root;
    assert iter.currentChunk < iter.nChunks;
    Store(root, iter, p, chain);
  }

  /** chunks[current_chunk++] = p */
  method Store(root: ChunkAllocator, block: ChunkAllocator, p: Chunk, ghost chain: seq<ChunkAllocator>)
    requires Linked(root, chain) && block == root && root.currentChunk < root.nChunks
    modifies block`currentChunk, block.chunks
    ensures block.currentChunk == old(block.currentChunk) + 1
    ensures Linked(root, chain) && Stacks(root, chain) ==
            old(Stacks(root, chain))[0 := old(Stacks(root, chain))[0] + [p]]
  {
    block.chunks[block.currentChunk] := p;
    block.currentChunk := block.currentChunk + 1;
    ghost var now, was := Stacks(root, chain), old(Stacks(root, chain));
    assert block.chunks[..block.currentChunk] == was[0] + [p];
    assert forall i :: 1 <= i < |chain| ==> chain[i].chunks[..] == old(chain[i].chunks[..]);
    assert forall i :: 1 <= i < |chain| ==> now[i] == was[i];
    assert now == was[0 := was[0] + [p]];
  }

  lemma StoreKeeps(was: seq<seq<Chunk>>, now: seq<seq<Chunk>>, p: Chunk, live: multiset<Chunk>, all: multiset<Chunk>)
    requires was != [] && now == was[0 := was[0] + [p]] && Sum(was) + live == all && p in live
    ensures Sum(now) + (live - multiset{p}) == all
  {
    SumUpdate(was, 0, was[0] + [p]);
    var one, rest := multiset{p}, multiset(was[0]);
    assert multiset(was[0] + [p]) == rest + one;
    assert Sum(now) + rest == Sum(was) + one + rest;
    Cancel(Sum(now), Sum(was) + one, rest);
    assert one + (live - one) == live;
    assert Sum(now) + (live - one) == Sum(was) + (one + (live - one));
  }

  /** chfree always puts the chunk on the root's stack. It stays inside that stack exactly when the stack is
      not full; a full one is written past its end. */
  method Chfree(root: ChunkAllocator, p: Chunk, ghost chain: seq<ChunkAllocator>, ghost live: multiset<Chunk>)
    returns (inside: bool)
    requires Partition(root, chain, live) && p in live
    modifies root`currentChunk, root.chunks
    ensures inside == (old(root.currentChunk) < root.nChunks)
    ensures inside ==> Partition(root, chain, live - multiset{p}) && root.currentChunk == old(root.currentChunk) + 1
  {
    ghost var was := Stacks(root, chain);
    if root.currentChunk == 0 {
      PushChunkToFirstFreeStack(root, p, chain);
    } else {
      if root.currentChunk >= root.chunks.Length {
        return false;
      }
      Store(root, root, p, chain);
    }
    StoreKeeps(was, Stacks(root, chain), p, live, Sum(AllChunks(Memories(chain), root.nChunks)));
    return true;
  }

  // ----- consequences -----

  lemma {:induction false} FreshOnce(ms: seq<Memory>, n: nat, c: Chunk)
    requires forall i, j :: 0 <= i < j < |ms| ==> ms[i] != ms[j]
    ensures Sum(AllChunks(ms, n))[c] == if c.memory in ms && c.index < n then 1 else 0
  {
    if ms != [] {
      FreshOnce(ms[1..], n, c);
      FreshCount(ms[0], n, c);
      assert AllChunks(ms, n)[1..] == AllChunks(ms[1..], n);
      assert c.memory in ms <==> c.memory == ms[0] || c.memory in ms[1..];
    }
  }

  lemma {:induction false} FreshCount(m: Memory, n: nat, c: Chunk)
    ensures multiset(Fresh(m, n))[c] == if c.memory == m && c.index < n then 1 else 0
  {
    if n > 0 {
      FreshCount(m, n - 1, c);
      assert Fresh(m, n) == Fresh(m, n - 1) + [Chunk(m, n - 1)];
    }
  }

  /** A chunk is never live twice, and never live and free at once: so challoc hands out no live chunk. */
  lemma NeverTwice(root: ChunkAllocator, chain: seq<ChunkAllocator>, live: multiset<Chunk>, c: Chunk)
    requires Partition(root, chain, live)
    ensures Sum(Stacks(root, chain))[c] + live[c] <= 1
    ensures Sum(Stacks(root, chain))[c] + live[c] == 1 <==> c.memory in Memories(chain) && c.index < root.nChunks
  {
    FreshOnce(Memories(chain), root.nChunks, c);
    assert (Sum(Stacks(root, chain)) + live)[c] == Sum(Stacks(root, chain))[c] + live[c];
  }

  /** Live and free chunks together are all there are. */
  lemma Conserved(root: ChunkAllocator, chain: seq<ChunkAllocator>, live: multiset<Chunk>)
    requires Partition(root, chain, live)
    ensures |Sum(Stacks(root, chain))| + |live| == |chain| * root.nChunks
  {
    SumSize(AllChunks(Memories(chain), root.nChunks), root.nChunks);
    assert |Sum(Stacks(root, chain)) + live| == |Sum(Stacks(root, chain))| + |live|;
  }

  /** The chain as chcreate leaves it. */
  method Create(n: nat) returns (root: ChunkAllocator)
    requires n > 0
    ensures fresh(root) && fresh(root.chunks) && root.nChunks == root.currentChunk == n &&
            Partition(root, [root], multiset{})
  {
    root := new ChunkAllocator(n);
    assert root.chunks[..root.currentChunk] == root.chunks[..];
    assert Stacks(root, [root]) == [Fresh(root.memory, n)];
    assert Memories([root]) == [root.memory];
    assert AllChunks([root.memory], n) == [Fresh(root.memory, n)];
  }

  /** With one chunk a block, freeing two live chunks in a row writes past the end of the root's stack. */
  method TwoFreesOverflow() returns (first: bool, second: bool)
    ensures first && !second
  {
    var root := Create(1);
    ghost var chain, live := [root], multiset{};
    var a, b;
    a, chain := Challoc(root, chain, live);
    live := live + multiset{a};
    b, chain := Challoc(root, chain, live);
    live := live + multiset{b};
    first := Chfree(root, a, chain, live);
    second := Chfree(root, b, chain, live - multiset{a});
  }
}
