/** core/var.c, core/map.c and core/block.c in their own form: buckets of linked nodes. */
module HashTable {
  import opened Bytes
  import opened Tables

  class Node<V> {
    const name: Name
    var v: V
    var next: Node?<V>

    constructor (name: Name, v: V, next: Node?<V>)
      ensures this.name == name && this.v == v && this.next == next
    {
      this.name := name;
      this.v := v;
      this.next := next;
    }
  }

  /** The k-th node, or null behind the last one. */
  function NodeAt<V>(c: seq<Node<V>>, k: nat): (n: Node?<V>) {
    if k < |c| then c[k] else null
  }

  /** The nodes that hang on a pointer, in order. */
  ghost predicate Linked<V>(head: Node?<V>, c: seq<Node<V>>)
    reads c
  {
    head == NodeAt(c, 0) && forall i {:trigger c[i].next} :: 0 <= i < |c| ==> c[i].next == NodeAt(c, i + 1)
  }

  /** Every node is in the bucket of its hash, and no name occurs twice. */
  ghost predicate Placed<V>(c: seq<Node<V>>, size: nat, b: nat)
    requires size > 0
  {
    (forall i :: 0 <= i < |c| ==> Bucket(size, c[i].name) == b) &&
    (forall i, j :: 0 <= i < j < |c| ==> c[i].name != c[j].name)
  }

  /** What the nodes hold. */
  ghost function Entries<V>(c: seq<Node<V>>): (r: Chain<V>)
    reads c
    ensures |r| == |c| && forall i :: 0 <= i < |c| ==> r[i] == Entry(c[i].name, c[i].v)
  {
    seq(|c|, i requires 0 <= i < |c| reads c => Entry(c[i].name, c[i].v))
  }

  lemma {:induction false} FindAt<V>(c: Chain<V>, name: Name, k: nat)
    requires k <= |c| && (forall i :: 0 <= i < k ==> c[i].name != name) && (k < |c| ==> c[k].name == name)
    ensures FindIn(c, name) == if k < |c| then Some(c[k].v) else None
    ensures k < |c| ==> RemoveIn(c, name) == c[..k] + c[k + 1..]
    ensures k == |c| ==> RemoveIn(c, name) == c
    decreases k
  {
    if k > 0 {
      FindAt(c[1..], name, k - 1);
      assert c == [c[0]] + c[1..];
    } else if c != [] {
      assert c[..0] + c[1..] == c[1..];
    }
  }

  lemma {:induction false} PutAt<V>(c: Chain<V>, name: Name, k: nat, v: V)
    requires k < |c| && (forall i :: 0 <= i < k ==> c[i].name != name) && c[k].name == name
    ensures PutIn(c, name, v) == c[k := Entry(name, v)]
    decreases k
  {
    if k > 0 {
      PutAt(c[1..], name, k - 1, v);
      assert c == [c[0]] + c[1..];
    }
  }

  lemma {:induction false} PrefixAt<V>(c: Chain<V>, key: Name, k: nat)
    requires k <= |c| && (forall i :: 0 <= i < k ==> !(key <= c[i].name)) && (k < |c| ==> key <= c[k].name)
    ensures FindPrefixIn(c, key) == if k < |c| then Some(c[k].name) else None
    decreases k
  {
    if k > 0 {
      PrefixAt(c[1..], key, k - 1);
    }
  }

  twostate lemma SameEntries<V>(c: seq<Node<V>>)
    requires forall i :: 0 <= i < |c| ==> c[i].v == old(c[i].v)
    ensures Entries(c) == old(Entries(c))
  {
  }

  /** Shifting left by five and subtracting is multiplying by 31, wrap-around included. */
  lemma HashStep(c: int, acc: nat)
    ensures (c + (acc * 32) % 0x1_0000_0000 - acc) % 0x1_0000_0000 == (c + 31 * acc) % 0x1_0000_0000
  {
    var m, q := 0x1_0000_0000, acc * 32 / 0x1_0000_0000;
    assert (acc * 32) % m == acc * 32 - q * m;
    WrapOff(c + 31 * acc, q);
  }

  lemma WrapOff(x: int, q: int)
    ensures (x - q * 0x1_0000_0000) % 0x1_0000_0000 == x % 0x1_0000_0000
  {
    var m := 0x1_0000_0000;
    var y := x - q * m;
    assert y == (x / m - q) * m + x % m;
    assert y / m == x / m - q;
  }

  class HashTable<V> {
    const table: array<Node?<V>>
    ghost var chains: seq<seq<Node<V>>>

    /** var_table_create: all buckets are empty. */
    constructor (size: nat)
      requires size > 0
      ensures Valid() && Abs() == Empty(size) && fresh(table) && Nodes() == {}
    {
      table := new Node?<V>[size](_ => null);
      chains := seq(size, _ => []);
      new;
      assert forall b :: 0 <= b < size ==> Entries(chains[b]) == [];
      assert Abs().buckets == seq(size, i => []);
    }

    ghost function Nodes(): (s: set<Node<V>>)
      reads this
    {
      set b, i | 0 <= b < |chains| && 0 <= i < |chains[b]| :: chains[b][i]
    }

    ghost predicate Valid()
      reads this, table, Nodes()
    {
      table.Length == |chains| > 0 &&
      forall b :: 0 <= b < |chains| ==> Linked(table[b], chains[b]) && Placed(chains[b], |chains|, b)
    }

    /** The table as a value. */
    ghost function Abs(): (t: Table<V>)
      requires |chains| > 0
      reads this, Nodes()
      ensures Usable(t) && |t.buckets| == |chains| &&
              forall b :: 0 <= b < |chains| ==> t.buckets[b] == Entries(chains[b])
    {
      Table(seq(|chains|, b requires 0 <= b < |chains| reads this, Nodes() => Entries(chains[b])))
    }

    /** var_hash: times 31 by a shift and a subtraction, in 32 bits. */
    method Hash(str: Name) returns (h: nat)
      requires table.Length > 0
      ensures h == Bucket(table.Length, str)
    {
      hide SignedChar;
      var hashval, k := 0, 0;
      assert str[0..] == str;
      while k < |str|
        invariant 0 <= k <= |str| && 0 <= hashval < 0x1_0000_0000
        invariant HashFrom(hashval, str[k..]) == HashFrom(0, str)
      {
        assert str[k..][0] == str[k] && str[k..][1..] == str[k + 1..];
        HashStep(SignedChar(str[k]), hashval);
        hashval := (SignedChar(str[k]) + (hashval * 32) % 0x1_0000_0000 - hashval) % 0x1_0000_0000;
        k := k + 1;
      }
      h := hashval % table.Length;
    }

    /** var_lookup; the index of the node is ghost. */
    method LookupNode(str: Name) returns (list: Node?<V>, ghost b: nat, ghost k: nat)
      requires Valid()
      ensures b == Bucket(table.Length, str) && k <= |chains[b]| && list == NodeAt(chains[b], k)
      ensures (forall i :: 0 <= i < k ==> chains[b][i].name != str) && (list != null ==> list.name == str)
    {
      var hashval := Hash(str);
      b, k := hashval, 0;
      list := table[hashval];
      while list != null && list.name != str
        invariant 0 <= k <= |chains[b]| && list == NodeAt(chains[b], k)
        invariant forall i :: 0 <= i < k ==> chains[b][i].name != str
        decreases |chains[b]| - k
      {
        NextOf(b, k);
        list := list.next;
        k := k + 1;
      }
    }

    method LookupValue(str: Name) returns (r: Option<V>)
      requires Valid()
      ensures r == Lookup(Abs(), str)
    {
      var list;
      ghost var b, k;
      list, b, k := LookupNode(str);
      FindAt(Entries(chains[b]), str, k);
      r := if list == null then None else Some(list.v);
    }

    /** var_lookup_2: compares as many bytes as the key has. */
    method LookupByPrefix(str: Name) returns (r: Option<Name>)
      requires Valid()
      ensures r == LookupPrefix(Abs(), str)
    {
      var hashval := Hash(str);
      var list := table[hashval];
      ghost var b, k := hashval, 0;
      while list != null && !(str <= list.name)
        invariant 0 <= k <= |chains[b]| && list == NodeAt(chains[b], k)
        invariant forall i :: 0 <= i < k ==> !(str <= chains[b][i].name)
        decreases |chains[b]| - k
      {
        NextOf(b, k);
        list := list.next;
        k := k + 1;
      }
      PrefixAt(Entries(chains[b]), str, k);
      r := if list == null then None else Some(list.name);
    }

    /** Only bucket b has another chain. */
    lemma AbsWith(before: Table<V>, b: nat, name: Name, c: Chain<V>)
      requires Usable(before) && |chains| == |before.buckets| && b == Bucket(|chains|, name)
      requires Entries(chains[b]) == c
      requires forall i :: 0 <= i < |chains| && i != b ==> Entries(chains[i]) == before.buckets[i]
      ensures Abs() == WithChain(before, name, c)
    {
      assert Abs().buckets == before.buckets[b := c];
    }

    /** Nodes of other buckets are other nodes. */
    lemma Apart(a: nat, b: nat, i: nat, j: nat)
      requires Valid() && a < |chains| && b < |chains| && a != b && i < |chains[a]| && j < |chains[b]|
      ensures chains[a][i] != chains[b][j]
    {
      hide Bucket;
      assert Placed(chains[a], |chains|, a) && Placed(chains[b], |chains|, b);
    }

    /** A new node at the head of its bucket. */
    method Insert(str: Name, v: V, b: nat) returns (list: Node<V>)
      requires Valid() && b == Bucket(table.Length, str) &&
               forall i :: 0 <= i < |chains[b]| ==> chains[b][i].name != str
      modifies this, table
      ensures Valid() && fresh(list) && list.name == str && list.v == v &&
              chains == old(chains)[b := [list] + old(chains[b])]
    {
      hide Bucket;
      list := new Node(str, v, table[b]);
      ghost var was := chains[b];
      table[b] := list;
      chains := chains[b := [list] + was];
      assert Linked(table[b], chains[b]);
      assert Placed(chains[b], |chains|, b);
    }

    /** var_add, map_add, block_add: a name that is there keeps its entry. */
    method Add(str: Name, v: V) returns (list: Node<V>, isNew: bool)
      requires Valid()
      modifies this, table
      ensures Valid() && Abs() == Declare(old(Abs()), str, v)
      ensures isNew == Lookup(old(Abs()), str).None? && list.name == str
      ensures if isNew then fresh(list) && list.v == v else list in old(Nodes())
      ensures var b := Bucket(table.Length, str);
              chains == if isNew then old(chains)[b := [list] + old(chains)[b]]
                        else old(chains)
    {
      hide Bucket, Placed, Linked, FindIn;
      var current;
      ghost var b, k;
      current, b, k := LookupNode(str);
      FindAt(Entries(chains[b]), str, k);
      if current != null {
        return current, false;
      }
      list := AddNew(str, v, b);
      isNew := true;
    }

    /** The name is not there yet. */
    method AddNew(str: Name, v: V, ghost b: nat) returns (list: Node<V>)
      requires Valid() && b == Bucket(table.Length, str) && Lookup(Abs(), str).None?
      requires forall i :: 0 <= i < |chains[b]| ==> chains[b][i].name != str
      modifies this, table
      ensures Valid() && Abs() == Declare(old(Abs()), str, v) && fresh(list) && list.name == str && list.v == v
      ensures chains == old(chains)[b := [list] + old(chains)[b]]
    {
      hide Bucket, Placed, Linked, FindIn;
      ghost var before, was := Abs(), Entries(chains[b]);
      var hashval := Hash(str);
      list := Insert(str, v, hashval);
      assert Entries(chains[b]) == [Entry(str, v)] + was;
      AbsWith(before, b, str, [Entry(str, v)] + was);
    }

    /** The node with this name and the node in front of it. */
    method Search(str: Name, hashval: nat) returns (prev: Node?<V>, list: Node?<V>, ghost k: nat)
      requires Valid() && hashval == Bucket(table.Length, str)
      ensures k <= |chains[hashval]| && list == NodeAt(chains[hashval], k)
      ensures prev == (if k > 0 then chains[hashval][k - 1] else null)
      ensures (forall i :: 0 <= i < k ==> chains[hashval][i].name != str) && (list != null ==> list.name == str)
    {
      prev, list, k := null, table[hashval], 0;
      while list != null && list.name != str
        invariant 0 <= k <= |chains[hashval]|
        invariant list == NodeAt(chains[hashval], k)
        invariant prev == (if k > 0 then chains[hashval][k - 1] else null)
        invariant forall i :: 0 <= i < k ==> chains[hashval][i].name != str
        decreases |chains[hashval]| - k
      {
        NextOf(hashval, k);
        prev := list;
        list := list.next;
        k := k + 1;
      }
    }

    /** A node of one bucket is in no other. */
    lemma OnlyHere(b: nat, k: nat)
      requires Valid() && b < |chains| && k < |chains[b]|
      ensures forall a, i :: 0 <= a < |chains| && a != b && 0 <= i < |chains[a]| ==> chains[a][i] != chains[b][k]
      ensures forall i :: 0 <= i < |chains[b]| && i != k ==> chains[b][i] != chains[b][k]
    {
      hide Bucket;
      assert Placed(chains[b], |chains|, b);
      forall a, i | 0 <= a < |chains| && a != b && 0 <= i < |chains[a]| ensures chains[a][i] != chains[b][k] {
        Apart(a, b, i, k);
      }
    }

    lemma NextOf(b: nat, k: nat)
      requires Valid() && b < |chains| && k < |chains[b]|
      ensures chains[b][k].next == NodeAt(chains[b], k + 1)
      ensures k == 0 ==> table[b] == chains[b][0]
    {
      hide Placed;
      assert Linked(table[b], chains[b]);
    }

    lemma PlacedWithout(c: seq<Node<V>>, b: nat, k: nat)
      requires |chains| > 0 && k < |c| && Placed(c, |chains|, b)
      ensures Placed(c[..k] + c[k + 1..], |chains|, b)
    {
      hide Bucket;
    }

    method UnlinkHead(b: nat)
      requires Valid() && b < table.Length && chains[b] != []
      modifies this, table
      ensures Valid() && chains == old(chains)[b := old(chains[b])[1..]]
    {
      hide Bucket, Placed;
      NextOf(b, 0);
      ghost var was := chains[b];
      PlacedWithout(was, b, 0);
      assert was[..0] + was[1..] == was[1..];
      ghost var c := was[1..];
      forall i | 0 <= i < |c| ensures c[i].next == NodeAt(c, i + 1) {
        NextOf(b, i + 1);
      }
      table[b] := table[b].next;
      chains := chains[b := c];
      assert forall i :: 0 <= i < |c| ==> c[i].next == old(c[i].next);
      assert Linked(table[b], c);
    }

    /** The links of a chain with its k-th node left out: only the node in front of it is wrong. */
    lemma SkippedLinks(b: nat, k: nat)
      requires Valid() && b < |chains| && 0 < k < |chains[b]|
      ensures var was, c := chains[b], chains[b][..k] + chains[b][k + 1..];
              c[k - 1] == was[k - 1] && was[k - 1].next == was[k] && was[k].next == NodeAt(c, k) && table[b] == c[0] &&
              forall i {:trigger c[i].next} ::
                0 <= i < |c| && i != k - 1 ==> c[i].next == NodeAt(c, i + 1) && c[i] != was[k - 1]
    {
      hide Bucket, Placed, Linked;
      NextOf(b, k - 1);
      NextOf(b, k);
      NextOf(b, 0);
      OnlyHere(b, k - 1);
      var was, c := chains[b], chains[b][..k] + chains[b][k + 1..];
      forall i | 0 <= i < |c| && i != k - 1 ensures c[i].next == NodeAt(c, i + 1) {
        NextOf(b, if i < k then i else i + 1);
      }
    }

    method UnlinkAfter(prev: Node<V>, b: nat, ghost k: nat)
      requires Valid() && b < table.Length && 0 < k < |chains[b]| && prev == chains[b][k - 1]
      modifies this, prev`next
      ensures Valid() && chains == old(chains)[b := old(chains[b])[..k] + old(chains[b])[k + 1..]]
    {
      hide Bucket, Placed, NodeAt;
      SkippedLinks(b, k);
      OnlyHere(b, k - 1);
      PlacedWithout(chains[b], b, k);
      ghost var c := chains[b][..k] + chains[b][k + 1..];
      HeadAt(c);
      prev.next := prev.next.next;
      chains := chains[b := c];
      assert Linked(table[b], c);
    }

    lemma HeadAt(c: seq<Node<V>>)
      ensures c != [] ==> NodeAt(c, 0) == c[0]
    {
    }

    lemma FewerNodes(was: seq<seq<Node<V>>>, b: nat, k: nat, all: set<Node<V>>)
      requires b < |was| && k < |was[b]| && chains == was[b := was[b][..k] + was[b][k + 1..]]
      requires forall a, i :: 0 <= a < |was| && 0 <= i < |was[a]| ==> was[a][i] in all
      ensures Nodes() <= all
    {
      forall n | n in Nodes() ensures n in all {
        var a, i :| 0 <= a < |chains| && 0 <= i < |chains[a]| && chains[a][i] == n;
        if a == b { assert n == was[b][if i < k then i else i + 1]; } else { assert n == was[a][i]; }
      }
    }

    /** Takes the k-th node of bucket b out of its chain, and touches no value. */
    method Unlink(prev: Node?<V>, b: nat, ghost k: nat)
      requires Valid() && b < table.Length && k < |chains[b]| && prev == (if k > 0 then chains[b][k - 1] else null)
      modifies this, table, Nodes()
      ensures Valid() && |chains| == |old(chains)| && Nodes() <= old(Nodes())
      ensures Entries(chains[b]) == old(Entries(chains[b]))[..k] + old(Entries(chains[b]))[k + 1..]
      ensures forall i :: 0 <= i < |chains| && i != b ==> Entries(chains[i]) == old(Entries(chains[i]))
    {
      hide Bucket, Placed, Linked;
      ghost var was, c := chains, chains[b];
      if prev == null {
        UnlinkHead(b);
        assert c[..0] + c[1..] == c[1..];
      } else {
        assert prev in Nodes();
        UnlinkAfter(prev, b, k);
      }
      forall i | 0 <= i < |chains| ensures Entries(was[i]) == old(Entries(was[i])) {
        SameEntries(was[i]);
      }
      FewerNodes(was, b, k, old(Nodes()));
      assert Entries(chains[b]) == Entries(c)[..k] + Entries(c)[k + 1..];
    }

    /** var_delete, map_delete, block_delete: 1 means the name was not there. */
    method Delete(str: Name) returns (missing: bool)
      requires Valid()
      modifies this, table, Nodes()
      ensures Valid() && Abs() == Remove(old(Abs()), str) && missing == Lookup(old(Abs()), str).None?
      ensures Nodes() <= old(Nodes())
    {
      hide Bucket, Placed, Linked;
      ghost var before := Abs();
      var hashval := Hash(str);
      var prev, list;
      ghost var k;
      prev, list, k := Search(str, hashval);
      ghost var was, held := chains[hashval], Entries(chains[hashval]);
      FindAt(held, str, k);
      missing := list == null;
      if missing {
        AbsWith(before, hashval, str, held);
        return;
      }
      Unlink(prev, hashval, k);
      AbsWith(before, hashval, str, RemoveIn(held, str));
    }

    /** Writing through the pointer that a lookup returned. */
    method Store(str: Name, v: V) returns (found: bool)
      requires Valid()
      modifies Nodes()
      ensures Valid() && found == Lookup(old(Abs()), str).Some? && chains == old(chains)
      ensures Abs() == if found then Put(old(Abs()), str, v) else old(Abs())
    {
      hide Bucket, Placed;
      ghost var before := Abs();
      var list;
      ghost var b, k;
      list, b, k := LookupNode(str);
      ghost var was := Entries(chains[b]);
      FindAt(was, str, k);
      found := list != null;
      if found {
        PutAt(was, str, k, v);
        OnlyHere(b, k);
        list.v := v;
        assert Entries(chains[b]) == was[k := Entry(str, v)];
        AbsWith(before, b, str, PutIn(was, str, v));
      }
    }
  }

  // ----- any sequence of operations -----

  datatype Op<V> = AddOp(name: Name, v: V) | DeleteOp(name: Name) | StoreOp(name: Name, v: V)

  /** What one operation does to a finite map: add never overwrites, delete removes only its key. */
  function Applied<V>(m: map<Name, V>, op: Op<V>): (r: map<Name, V>) {
    match op
    case AddOp(x, v) => if x in m then m else m[x := v]
    case DeleteOp(x) => m - {x}
    case StoreOp(x, v) => if x in m then m[x := v] else m
  }

  function Model<V>(ops: seq<Op<V>>, m: map<Name, V>): (r: map<Name, V>) {
    if ops == [] then m else Model(ops[1..], Applied(m, ops[0]))
  }

  method Perform<V>(t: HashTable<V>, op: Op<V>, ghost m: map<Name, V>)
    requires t.Valid() && Represents(t.Abs(), m)
    modifies t, t.table, t.Nodes()
    ensures t.Valid() && Represents(t.Abs(), Applied(m, op))
    ensures forall n :: n in t.Nodes() ==> n in old(t.Nodes()) || fresh(n)
  {
    hide Represents, Bucket;
    match op {
      case AddOp(x, v) =>
        DeclareRepresents(t.Abs(), m, x, v);
        var _, _ := t.Add(x, v);
      case DeleteOp(x) =>
        RemoveRepresents(t.Abs(), m, x);
        var _ := t.Delete(x);
      case StoreOp(x, v) =>
        LookupRepresents(t.Abs(), m, x);
        if x in m { PutRepresents(t.Abs(), m, x, v); }
        var _ := t.Store(x, v);
    }
  }

  lemma LookupRepresents<V>(t: Table<V>, m: map<Name, V>, x: Name)
    requires Represents(t, m)
    ensures Lookup(t, x) == if x in m then Some(m[x]) else None
  {
  }

  /** Whatever is done to a table, from its creation on, it stays a faithful finite map. */
  method PerformAll<V>(size: nat, ops: seq<Op<V>>) returns (t: HashTable<V>)
    requires size > 0
    ensures t.Valid() && Represents(t.Abs(), Model(ops, map[]))
  {
    hide Represents, Bucket;
    t := new HashTable<V>(size);
    EmptyRepresents<V>(size);
    var k := 0;
    ghost var m: map<Name, V> := map[];
    assert ops[0..] == ops;
    while k < |ops|
      invariant 0 <= k <= |ops| && t.Valid() && Represents(t.Abs(), m) && Model(ops[k..], m) == Model(ops, map[])
      invariant fresh(t) && fresh(t.table) && fresh(t.Nodes())
    {
      assert ops[k..][0] == ops[k] && ops[k..][1..] == ops[k + 1..];
      Perform(t, ops[k], m);
      m := Applied(m, ops[k]);
      k := k + 1;
    }
  }
}
