/** The chained hash table of core/var.c, as a value: buckets of entries, newest first. */
module Tables {
  import opened Bytes

  datatype Entry<+V> = Entry(name: Name, v: V)

  type Chain<+V> = seq<Entry<V>>

  datatype Table<+V> = Table(buckets: seq<Chain<V>>)

  /** A C char: bytes from 128 on are negative. */
  function SignedChar(b: Byte): (c: int) {
    if b < 128 then b else b - 256
  }

  /** The running value of the hash loop, a 32-bit unsigned. */
  function HashFrom(acc: int, name: Name): (h: int)
    decreases |name|
  {
    if name == [] then acc
    else HashFrom((SignedChar(name[0]) + 31 * acc) % 0x1_0000_0000, name[1..])
  }

  function Bucket(size: nat, name: Name): (i: nat)
    requires size > 0
    ensures i < size
  {
    HashFrom(0, name) % size
  }

  /** strcmp search along one chain. */
  function FindIn<V>(c: Chain<V>, name: Name): (r: Option<V>) {
    if c == [] then None else if c[0].name == name then Some(c[0].v) else FindIn(c[1..], name)
  }

  /** memcmp search along one chain: the first entry that starts with key. */
  function FindPrefixIn<V>(c: Chain<V>, key: Name): (r: Option<Name>) {
    if c == [] then None else if key <= c[0].name then Some(c[0].name) else FindPrefixIn(c[1..], key)
  }

  function PutIn<V>(c: Chain<V>, name: Name, v: V): (r: Chain<V>) {
    if c == [] then []
    else if c[0].name == name then [Entry(name, v)] + c[1..]
    else [c[0]] + PutIn(c[1..], name, v)
  }

  function RemoveIn<V>(c: Chain<V>, name: Name): (r: Chain<V>) {
    if c == [] then []
    else if c[0].name == name then c[1..]
    else [c[0]] + RemoveIn(c[1..], name)
  }

  predicate Usable<V>(t: Table<V>) {
    |t.buckets| > 0
  }

  function ChainOf<V>(t: Table<V>, name: Name): (c: Chain<V>)
    requires Usable(t)
  {
    t.buckets[Bucket(|t.buckets|, name)]
  }

  function WithChain<V>(t: Table<V>, name: Name, c: Chain<V>): (r: Table<V>)
    requires Usable(t)
    ensures Usable(r) && |r.buckets| == |t.buckets|
    ensures ChainOf(r, name) == c
    ensures forall k {:trigger ChainOf(r, k)} ::
              Bucket(|t.buckets|, k) != Bucket(|t.buckets|, name) ==> ChainOf(r, k) == ChainOf(t, k)
  {
    Table(t.buckets[Bucket(|t.buckets|, name) := c])
  }

  /** var_lookup */
  function Lookup<V>(t: Table<V>, name: Name): (r: Option<V>)
    requires Usable(t)
  {
    FindIn(ChainOf(t, name), name)
  }

  /** var_lookup_2: compares only as many bytes as the key has. The found entry is known by its name. */
  function LookupPrefix<V>(t: Table<V>, key: Name): (r: Option<Name>)
    requires Usable(t)
  {
    FindPrefixIn(ChainOf(t, key), key)
  }

  /** var_add, map_add, block_add: prepend unless the name is there. */
  function Declare<V>(t: Table<V>, name: Name, v: V): (r: Table<V>)
    requires Usable(t)
    ensures Usable(r) && |r.buckets| == |t.buckets|
  {
    if Lookup(t, name).Some? then t else WithChain(t, name, [Entry(name, v)] + ChainOf(t, name))
  }

  /** Writing through a pointer to an entry. */
  function Put<V>(t: Table<V>, name: Name, v: V): (r: Table<V>)
    requires Usable(t)
    ensures Usable(r) && |r.buckets| == |t.buckets|
  {
    WithChain(t, name, PutIn(ChainOf(t, name), name, v))
  }

  /** var_delete, map_delete, block_delete: unlink the first entry with this name. */
  function Remove<V>(t: Table<V>, name: Name): (r: Table<V>)
    requires Usable(t)
    ensures Usable(r) && |r.buckets| == |t.buckets|
  {
    WithChain(t, name, RemoveIn(ChainOf(t, name), name))
  }

  function Empty<V>(size: nat): (t: Table<V>)
    requires size > 0
    ensures Usable(t) && |t.buckets| == size
  {
    Table(seq(size, i => []))
  }

  // ----- the table refines a finite map -----

  ghost predicate DistinctNames<V>(c: Chain<V>) {
    forall i, j :: 0 <= i < j < |c| ==> c[i].name != c[j].name
  }

  /** Entries stay in the bucket of their hash, and no name occurs twice. */
  ghost predicate Valid<V>(t: Table<V>) {
    Usable(t) &&
    forall b | 0 <= b < |t.buckets| ::
      DistinctNames(t.buckets[b]) &&
      forall i | 0 <= i < |t.buckets[b]| :: Bucket(|t.buckets|, t.buckets[b][i].name) == b
  }

  ghost predicate Represents<V>(t: Table<V>, m: map<Name, V>) {
    Valid(t) && forall k :: Lookup(t, k) == if k in m then Some(m[k]) else None
  }

  lemma {:induction false} FindInSome<V>(c: Chain<V>, name: Name)
    ensures FindIn(c, name).Some? <==> exists i :: 0 <= i < |c| && c[i].name == name
  {
    if c != [] {
      FindInSome(c[1..], name);
      if i :| 0 <= i < |c| && c[i].name == name {
        if i > 0 { assert c[1..][i - 1].name == name; }
      }
    }
  }

  lemma {:induction false} PutInFinds<V>(c: Chain<V>, name: Name, v: V, k: Name)
    requires FindIn(c, name).Some?
    ensures FindIn(PutIn(c, name, v), k) == if k == name then Some(v) else FindIn(c, k)
    ensures |PutIn(c, name, v)| == |c| && forall i :: 0 <= i < |c| ==> PutIn(c, name, v)[i].name == c[i].name
  {
    if c[0].name == name {
      assert ([Entry(name, v)] + c[1..])[1..] == c[1..];
    } else {
      PutInFinds(c[1..], name, v, k);
      assert ([c[0]] + PutIn(c[1..], name, v))[1..] == PutIn(c[1..], name, v);
    }
  }

  lemma {:induction false} RemoveInFinds<V>(c: Chain<V>, name: Name, k: Name)
    requires DistinctNames(c)
    ensures FindIn(RemoveIn(c, name), k) == if k == name then None else FindIn(c, k)
    ensures DistinctNames(RemoveIn(c, name))
    ensures forall e :: e in RemoveIn(c, name) ==> e in c
  {
    if c != [] {
      if c[0].name == name {
        FindInSome(c[1..], name);
      } else {
        RemoveInFinds(c[1..], name, k);
        var r := RemoveIn(c[1..], name);
        assert ([c[0]] + r)[1..] == r;
        forall i | 0 <= i < |r| ensures r[i].name != c[0].name {
          assert r[i] in c[1..];
        }
      }
    }
  }

  lemma EmptyRepresents<V>(size: nat)
    requires size > 0
    ensures Represents(Empty<V>(size), map[])
  {
  }

  /** add never overwrites, and otherwise adds exactly one binding. */
  lemma DeclareRepresents<V>(t: Table<V>, m: map<Name, V>, name: Name, v: V)
    requires Represents(t, m)
    ensures Represents(Declare(t, name, v), if name in m then m else m[name := v])
  {
    if name !in m {
      var r := Declare(t, name, v);
      var c := ChainOf(t, name);
      FindInSome(c, name);
      assert ([Entry(name, v)] + c)[1..] == c;
      var m' := m[name := v];
      forall k ensures Lookup(r, k) == if k in m' then Some(m'[k]) else None {
        assert Lookup(t, k) == if k in m then Some(m[k]) else None;
        if Bucket(|t.buckets|, k) == Bucket(|t.buckets|, name) {
          assert ChainOf(r, k) == [Entry(name, v)] + c;
        }
      }
    }
  }

  lemma PutRepresents<V>(t: Table<V>, m: map<Name, V>, name: Name, v: V)
    requires Represents(t, m) && name in m
    ensures Represents(Put(t, name, v), m[name := v])
  {
    var r, c := Put(t, name, v), ChainOf(t, name);
    PutInFinds(c, name, v, name);
    var m' := m[name := v];
    forall k ensures Lookup(r, k) == if k in m' then Some(m'[k]) else None {
      assert Lookup(t, k) == if k in m then Some(m[k]) else None;
      PutInFinds(c, name, v, k);
      if Bucket(|t.buckets|, k) == Bucket(|t.buckets|, name) {
        assert ChainOf(r, k) == PutIn(c, name, v);
      }
    }
  }

  /** delete removes its key and nothing else. */
  lemma RemoveRepresents<V>(t: Table<V>, m: map<Name, V>, name: Name)
    requires Represents(t, m)
    ensures Represents(Remove(t, name), m - {name})
  {
    hide RemoveIn, FindIn, Bucket;
    var r, c := Remove(t, name), ChainOf(t, name);
    RemoveInFinds(c, name, name);
    assert Valid(r) by {
      var left := RemoveIn(c, name);
      forall i | 0 <= i < |left| ensures Bucket(|t.buckets|, left[i].name) == Bucket(|t.buckets|, name) {
        assert left[i] in c;
      }
    }
    var m' := m - {name};
    forall k ensures Lookup(r, k) == if k in m' then Some(m'[k]) else None {
      assert Lookup(t, k) == if k in m then Some(m[k]) else None;
      RemoveInFinds(c, name, k);
      if Bucket(|t.buckets|, k) == Bucket(|t.buckets|, name) {
        assert ChainOf(r, k) == RemoveIn(c, name);
      }
    }
  }

  // ----- when the prefix search is the exact search -----

  /** The first bucket-mate that starts with the key is the key itself, or there is none. */
  lemma {:induction false} FindPrefixInExact<V>(c: Chain<V>, key: Name)
    ensures FindPrefixIn(c, key) == (if FindIn(c, key).Some? then Some(key) else None) <==>
            forall i :: 0 <= i < |c| && key < c[i].name ==>
              exists j :: 0 <= j < i && c[j].name == key
  {
    hide FindIn;
    if c == [] {
      FindInSome(c, key);
    } else {
      FindInSome(c, key);
      FindInSome(c[1..], key);
      FindPrefixInExact(c[1..], key);
      var tail := c[1..];
      if c[0].name == key {
        assert FindPrefixIn(c, key) == Some(key);
      } else if key <= c[0].name {
        assert key < c[0].name;
      } else {
        FindInSome(c, key);
        if forall i :: 0 <= i < |c| && key < c[i].name ==> exists j :: 0 <= j < i && c[j].name == key {
          forall i | 0 <= i < |tail| && key < tail[i].name
            ensures exists j :: 0 <= j < i && tail[j].name == key
          {
            assert c[i + 1] == tail[i];
            var j :| 0 <= j < i + 1 && c[j].name == key;
            assert tail[j - 1].name == key;
          }
        }
        if forall i :: 0 <= i < |tail| && key < tail[i].name ==> exists j :: 0 <= j < i && tail[j].name == key {
          forall i | 0 <= i < |c| && key < c[i].name
            ensures exists j :: 0 <= j < i && c[j].name == key
          {
            assert c[i] == tail[i - 1];
            var j :| 0 <= j < i - 1 && tail[j].name == key;
            assert c[j + 1].name == key;
          }
        }
      }
    }
  }

  /** No two of these names share a bucket while one is a proper prefix of the other. */
  ghost predicate PrefixFree(size: nat, names: set<Name>)
    requires size > 0
  {
    forall a, b :: a in names && b in names && a < b ==> Bucket(size, a) != Bucket(size, b)
  }

  /** var_lookup_2 agrees with var_lookup on tables whose names are prefix-free. */
  lemma LookupPrefixExact<V>(t: Table<V>, m: map<Name, V>, names: set<Name>, key: Name)
    requires Represents(t, m) && m.Keys <= names && key in names
    requires PrefixFree(|t.buckets|, names)
    ensures LookupPrefix(t, key) == if key in m then Some(key) else None
  {
    var c := ChainOf(t, key);
    forall i | 0 <= i < |c| ensures !(key < c[i].name) {
      FindInSome(c, c[i].name);
      assert Lookup(t, c[i].name).Some?;
      assert c[i].name in m;
    }
    FindPrefixInExact(c, key);
    assert Lookup(t, key) == if key in m then Some(m[key]) else None;
  }
}
