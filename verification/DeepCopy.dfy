/** op_copy, array_clone and map_table_clone: copying a tree of values on the heap. */
module DeepCopy {
  import opened Bytes
  import opened Tables
  import opened HashTable

  const DOUBLE: Byte := 1
  const STRING: Byte := 2
  const ARRAY: Byte := 5
  const MAP: Byte := 6

  const MIN_ARRAY_SIZE := 100

  /** A double on the heap. */
  class Cell {
    var d: Double

    constructor (d: Double)
      ensures this.d == d
    {
      this.d := d;
    }
  }

  datatype Data =
    Nothing | Number(cell: Cell) | Text(bytes: array<Byte>) | Elements(arr: ArrayT) | Members(m: HashTable<Var>)

  class Var {
    var kind: Byte
    var data: Data

    /** calloc: no type, no data. */
    constructor ()
      ensures kind == 0 && data == Nothing
    {
      kind := 0;
      data := Nothing;
    }
  }

  class ArrayT {
    var vars: array<Var?>
    var size: nat
    var maxSize: nat

    constructor (size: nat, maxSize: nat, room: nat)
      ensures this.size == size && this.maxSize == maxSize && vars.Length == room && fresh(vars)
    {
      this.size := size;
      this.maxSize := maxSize;
      vars := new Var?[room](_ => null);
    }
  }

  // ----- the values that heap structures stand for -----

  datatype Tree =
    | Null(kind: Byte)
    | Num(d: Double)
    | Str(s: seq<Byte>)
    | Arr(elems: seq<Option<Tree>>)
    | Map(rows: seq<Row>)

  /** One bucket of a map, in the order of its chain. */
  datatype Row = Row(chain: Chain<Tree>)

  /** v and everything below it is in r, and spells out t. */
  ghost predicate Denotes(v: Var, t: Tree, r: set<object>)
    reads r
    decreases t, 1
  {
    v in r && DataDenotes(v.kind, v.data, t, r)
  }

  ghost predicate DataDenotes(kind: Byte, data: Data, t: Tree, r: set<object>)
    reads r
    decreases t, 0
  {
    match t
    case Null(k) => kind == k && data == Nothing
    case Num(d) => kind == DOUBLE && data.Number? && data.cell in r && data.cell.d == d
    case Str(s) => kind == STRING && data.Text? && data.bytes in r && data.bytes[..] == s
    case Arr(es) =>
      kind == ARRAY && data.Elements? && data.arr in r && data.arr.vars in r &&
      var a := data.arr;
      a.size == |es| && a.size <= a.vars.Length && a.size <= a.maxSize &&
      forall i :: 0 <= i < |es| ==> ElemDenotes(a.vars[i], es[i], r)
    case Map(rows) =>
      kind == MAP && data.Members? && data.m in r && data.m.table in r &&
      var m := data.m;
      m.Nodes() <= r && m.Valid() && |m.chains| == |rows| &&
      forall b :: 0 <= b < |rows| ==> ChainDenotes(m.chains[b], rows[b], r)
  }

  /** A hole in an array is a null pointer. */
  ghost predicate ElemDenotes(x: Var?, e: Option<Tree>, r: set<object>)
    reads r
    decreases e, 2
  {
    if e.None? then x == null else x != null && Denotes(x, e.value, r)
  }

  ghost predicate ChainDenotes(c: seq<Node<Var>>, row: Row, r: set<object>)
    reads r
    decreases row
  {
    |c| == |row.chain| && forall i :: 0 <= i < |c| ==> NodeDenotes(c[i], row.chain[i], r)
  }

  ghost predicate NodeDenotes(n: Node<Var>, e: Entry<Tree>, r: set<object>)
    reads r
    decreases e
  {
    n in r && n.name == e.name && Denotes(n.v, e.v, r)
  }

  /** Copying turns every chain of a map around: entries are read front to back and inserted at the head. */
  function Mirror(t: Tree): (u: Tree)
    ensures t.Arr? ==> u.Arr? && |u.elems| == |t.elems|
    ensures t.Map? ==> u.Map? && |u.rows| == |t.rows|
    decreases t
  {
    match t
    case Arr(es) =>
      Arr(seq(|es|, i requires 0 <= i < |es| => if es[i].None? then None else Some(Mirror(es[i].value))))
    case Map(rows) =>
      Map(seq(|rows|, b requires 0 <= b < |rows| => MirrorRow(rows[b])))
    case _ => t
  }

  function MirrorRow(row: Row): (r: Row)
    ensures |r.chain| == |row.chain|
    decreases row
  {
    var n := |row.chain|;
    Row(seq(n, i requires 0 <= i < n => Entry(row.chain[n - 1 - i].name, Mirror(row.chain[n - 1 - i].v))))
  }

  function MirrorElem(e: Option<Tree>): (r: Option<Tree>) {
    if e.None? then None else Some(Mirror(e.value))
  }

  // ----- the same value -----

  /** Two trees are the same value: numbers and strings are equal, arrays have the same elements and holes at the
      same places, maps have the same names in the same buckets, each with the same value. The order in which a
      bucket keeps its names does not count. */
  ghost predicate Same(t: Tree, u: Tree)
    decreases t, 1
  {
    match t
    case Null(k) => u == Null(k)
    case Num(d) => u == Num(d)
    case Str(s) => u == Str(s)
    case Arr(es) => u.Arr? && |u.elems| == |es| && forall i :: 0 <= i < |es| ==> SameElem(es[i], u.elems[i])
    case Map(rows) => u.Map? && |u.rows| == |rows| && forall b :: 0 <= b < |rows| ==> SameRow(rows[b], u.rows[b])
  }

  ghost predicate SameElem(e: Option<Tree>, f: Option<Tree>)
    decreases e, 2
  {
    e.Some? == f.Some? && (e.Some? ==> Same(e.value, f.value))
  }

  ghost predicate SameRow(row: Row, q: Row)
    decreases row, 0
  {
    |row.chain| == |q.chain| && (forall e :: e in row.chain ==> HasSame(q, e)) &&
    forall f :: f in q.chain ==> exists e :: e in row.chain && e.name == f.name
  }

  /** The bucket has an entry of that name with the same value. */
  ghost predicate HasSame(q: Row, e: Entry<Tree>)
    decreases e, 2
  {
    exists f :: f in q.chain && f.name == e.name && Same(e.v, f.v)
  }

  /** A copy is the same value. */
  lemma {:induction false} MirrorIsSame(t: Tree)
    ensures Same(t, Mirror(t))
    decreases t, 2
  {
    match t
    case Arr(es) =>
      forall i | 0 <= i < |es| ensures SameElem(es[i], Mirror(t).elems[i]) {
        if es[i].Some? { MirrorIsSame(es[i].value); }
      }
    case Map(rows) =>
      forall b | 0 <= b < |rows| ensures SameRow(rows[b], Mirror(t).rows[b]) {
        MirrorRowIsSame(rows[b]);
      }
    case _ =>
  }

  lemma {:induction false} MirrorRowIsSame(row: Row)
    ensures SameRow(row, MirrorRow(row))
    decreases row, 1
  {
    hide Same, Mirror;
    var c, d, n := row.chain, MirrorRow(row).chain, |row.chain|;
    forall e | e in c ensures HasSame(MirrorRow(row), e) {
      var i :| 0 <= i < n && c[i] == e;
      MirrorIsSame(e.v);
      assert d[n - 1 - i] == Entry(e.name, Mirror(e.v)) && d[n - 1 - i] in d;
    }
    forall f | f in d ensures exists e :: e in c && e.name == f.name {
      var j :| 0 <= j < n && d[j] == f;
      assert c[n - 1 - j] in c;
    }
  }

  predicate Flat(t: Tree)
    decreases t
  {
    match t
    case Arr(es) => forall i :: 0 <= i < |es| && es[i].Some? ==> Flat(es[i].value)
    case Map(_) => false
    case _ => true
  }

  /** A value without maps is copied to the letter. */
  lemma {:induction false} FlatIsKept(t: Tree)
    requires Flat(t)
    ensures Mirror(t) == t
    decreases t
  {
    if t.Arr? {
      forall i | 0 <= i < |t.elems| ensures Mirror(t).elems[i] == t.elems[i] {
        if t.elems[i].Some? { FlatIsKept(t.elems[i].value); }
      }
      assert Mirror(t).elems == t.elems;
    }
  }

  /** Everything found in a larger set. */
  lemma {:induction false} DenotesMore(kind: Byte, data: Data, t: Tree, r: set<object>, s: set<object>)
    requires DataDenotes(kind, data, t, r) && r <= s
    ensures DataDenotes(kind, data, t, s)
    decreases t
  {
    match t
    case Arr(es) =>
      forall i | 0 <= i < |es| ensures ElemDenotes(data.arr.vars[i], es[i], s) {
        ElemMore(data.arr.vars[i], es[i], r, s);
      }
    case Map(rows) =>
      forall b | 0 <= b < |rows| ensures ChainDenotes(data.m.chains[b], rows[b], s) {
        ChainMore(data.m.chains[b], rows[b], r, s);
      }
    case _ =>
  }

  lemma {:induction false} ElemMore(x: Var?, e: Option<Tree>, r: set<object>, s: set<object>)
    requires ElemDenotes(x, e, r) && r <= s
    ensures ElemDenotes(x, e, s)
    decreases e
  {
    if e.Some? { DenotesMore(x.kind, x.data, e.value, r, s); }
  }

  lemma {:induction false} NodeMore(n: Node<Var>, e: Entry<Tree>, r: set<object>, s: set<object>)
    requires NodeDenotes(n, e, r) && r <= s
    ensures NodeDenotes(n, e, s)
    decreases e
  {
    assert Denotes(n.v, e.v, r);
    DenotesMore(n.v.kind, n.v.data, e.v, r, s);
    assert Denotes(n.v, e.v, s);
  }

  lemma {:induction false} ChainMore(c: seq<Node<Var>>, row: Row, r: set<object>, s: set<object>)
    requires ChainDenotes(c, row, r) && r <= s
    ensures ChainDenotes(c, row, s)
    decreases row
  {
    forall i | 0 <= i < |c| ensures NodeDenotes(c[i], row.chain[i], s) {
      NodeMore(c[i], row.chain[i], r, s);
    }
  }

  // ----- copying -----

  /** The number or string cell of the destination itself: op_copy may write into it. */
  function Own(a: Var): (s: set<object>)
    reads a
  {
    match a.data
    case Number(c) => {c}
    case Text(bs) => {bs}
    case _ => {}
  }

  /** The data of a variable is of the kind its type says. */
  predicate Typed(a: Var)
    reads a
  {
    match a.data
    case Nothing => true
    case Number(_) => a.kind == DOUBLE
    case Text(_) => a.kind == STRING
    case Elements(_) => a.kind == ARRAY
    case Members(_) => a.kind == MAP
  }

  /** malloc and memcpy */
  method CopyBytes(src: array<Byte>) returns (dst: array<Byte>)
    ensures fresh(dst) && dst[..] == src[..]
  {
    dst := new Byte[src.Length](i requires 0 <= i < src.Length reads src => src[i]);
  }

  /** A fresh copy of what b holds. */
  method NewData(b: Var, ghost t: Tree, ghost r: set<object>) returns (d: Data, ghost f: set<object>)
    requires Denotes(b, t, r) && b.data != Nothing
    ensures fresh(f) && DataDenotes(b.kind, d, Mirror(t), f) && Same(t, Mirror(t))
    decreases t, 3
  {
    MirrorIsSame(t);
    match b.data {
      case Number(c) =>
        var cell := new Cell(c.d);
        d, f := Number(cell), {cell};
      case Text(bs) =>
        var copy := CopyBytes(bs);
        d, f := Text(copy), {copy};
      case Elements(arr) =>
        var copy;
        copy, f := ArrayClone(arr, t, r);
        d := Elements(copy);
      case Members(m) =>
        var copy;
        copy, f := MapTableClone(m, t, r);
        d := Members(copy);
    }
  }

  /** One element: holes stay holes. */
  method CopyElem(x: Var?, ghost e: Option<Tree>, ghost r: set<object>) returns (v: Var?, ghost q: set<object>)
    requires ElemDenotes(x, e, r)
    ensures fresh(q) && ElemDenotes(v, MirrorElem(e), q)
    decreases e, 6
  {
    hide DataDenotes;
    if x == null {
      v, q := null, {};
    } else {
      var y := new Var();
      q := OpCopy(y, x, e.value, r);
      v := y;
    }
  }

  /** The first n elements are in place. */
  ghost predicate CopiedTo(vars: array<Var?>, ms: seq<Option<Tree>>, n: nat, f: set<object>)
    reads vars, f
  {
    n <= |ms| && n <= vars.Length && forall j :: 0 <= j < n ==> ElemDenotes(vars[j], ms[j], f)
  }

  lemma CopiedNone(vars: array<Var?>, ms: seq<Option<Tree>>)
    ensures CopiedTo(vars, ms, 0, {})
  {
  }

  lemma CopiedMore(vars: array<Var?>, ms: seq<Option<Tree>>, n: nat, f: set<object>, q: set<object>)
    requires CopiedTo(vars, ms, n, f) && n < |ms| && n < vars.Length && ElemDenotes(vars[n], ms[n], q)
    ensures CopiedTo(vars, ms, n + 1, f + q)
  {
    hide ElemDenotes;
    forall j | 0 <= j < n ensures ElemDenotes(vars[j], ms[j], f + q) {
      ElemMore(vars[j], ms[j], f, f + q);
    }
    ElemMore(vars[n], ms[n], q, f + q);
  }

  method CloneElem(arr: ArrayT, vars: array<Var?>, i: nat, ghost t: Tree, ghost r: set<object>, ghost f: set<object>)
    returns (ghost g: set<object>)
    requires DataDenotes(ARRAY, Elements(arr), t, r) && vars !in r && i < arr.size <= vars.Length
    requires vars !in f && CopiedTo(vars, Mirror(t).elems, i, f)
    modifies vars
    ensures fresh(g - f) && f <= g && vars !in g && CopiedTo(vars, Mirror(t).elems, i + 1, g)
    ensures DataDenotes(ARRAY, Elements(arr), t, r)
    decreases t, 0
  {
    hide ElemDenotes;
    assert ElemDenotes(arr.vars[i], t.elems[i], r);
    var v;
    ghost var q;
    v, q := CopyElem(arr.vars[i], t.elems[i], r);
    assert Mirror(t).elems[i] == MirrorElem(t.elems[i]);
    assert forall j :: 0 <= j < i ==> ElemDenotes(vars[j], Mirror(t).elems[j], f);
    vars[i] := v;
    assert forall j :: 0 <= j < i ==> ElemDenotes(vars[j], Mirror(t).elems[j], f);
    CopiedMore(vars, Mirror(t).elems, i, f, q);
    g := f + q;
  }

  method CloneElems(arr: ArrayT, vars: array<Var?>, ghost t: Tree, ghost r: set<object>) returns (ghost f: set<object>)
    requires DataDenotes(ARRAY, Elements(arr), t, r) && vars !in r && arr.size <= vars.Length
    modifies vars
    ensures fresh(f) && vars !in f && CopiedTo(vars, Mirror(t).elems, |t.elems|, f)
    decreases t, 1
  {
    hide ElemDenotes, CopiedTo, Mirror;
    f := {};
    CopiedNone(vars, Mirror(t).elems);
    var i := 0;
    while i < arr.size
      invariant 0 <= i <= |t.elems| && fresh(f) && vars !in f && CopiedTo(vars, Mirror(t).elems, i, f)
      invariant DataDenotes(ARRAY, Elements(arr), t, r)
    {
      f := CloneElem(arr, vars, i, t, r, f);
      i := i + 1;
    }
  }

  lemma CopiedDenotes(copy: ArrayT, t: Tree, f: set<object>, all: set<object>)
    requires t.Arr? && CopiedTo(copy.vars, Mirror(t).elems, |t.elems|, f) && f <= all && copy in all && copy.vars in all
    requires copy.size == |t.elems| <= copy.maxSize
    ensures DataDenotes(ARRAY, Elements(copy), Mirror(t), all)
  {
    hide ElemDenotes, Mirror;
    var ms := Mirror(t).elems;
    forall j | 0 <= j < |ms| ensures ElemDenotes(copy.vars[j], ms[j], all) {
      ElemMore(copy.vars[j], ms[j], f, all);
    }
  }

  /** array_clone. The recorded capacity is at least 100, whatever was set aside. */
  method ArrayClone(arr: ArrayT, ghost t: Tree, ghost r: set<object>) returns (copy: ArrayT, ghost f: set<object>)
    requires DataDenotes(ARRAY, Elements(arr), t, r)
    ensures fresh(f) && DataDenotes(ARRAY, Elements(copy), Mirror(t), f) && Same(t, Mirror(t))
    ensures copy.vars.Length == arr.maxSize &&
            copy.maxSize == if arr.size > MIN_ARRAY_SIZE then arr.size else MIN_ARRAY_SIZE
    decreases t, 2
  {
    hide ElemDenotes, MirrorElem, CopiedTo, Same;
    MirrorIsSame(t);
    ghost var es := t.elems;
    copy := new ArrayT(arr.size, if arr.size > MIN_ARRAY_SIZE then arr.size else MIN_ARRAY_SIZE, arr.maxSize);
    var vars := copy.vars;
    f := CloneElems(arr, vars, t, r);
    ghost var all := f + {copy, vars};
    assert DataDenotes(ARRAY, Elements(copy), Mirror(t), all) by {
      CopiedDenotes(copy, t, f, all);
    }
    f := all;
  }
  // ----- maps -----

  /** The first k entries of a chain, turned around. */
  function Turned(row: Row, k: nat): (r: Row)
    requires k <= |row.chain|
  {
    MirrorRow(Row(row.chain[..k]))
  }

  lemma TurnedMore(row: Row, k: nat)
    requires k < |row.chain|
    ensures Turned(row, k + 1).chain == [Entry(row.chain[k].name, Mirror(row.chain[k].v))] + Turned(row, k).chain
    ensures Turned(row, 0).chain == []
  {
    hide Mirror;
    var a, b := row.chain[..k + 1], row.chain[..k];
    assert forall i :: 0 <= i < k ==> a[i] == b[i] == row.chain[i];
  }

  lemma TurnedAll(row: Row)
    ensures Turned(row, |row.chain|) == MirrorRow(row)
  {
    assert row.chain[..|row.chain|] == row.chain;
  }

  /** Buckets in front of b are copied, bucket b up to its k-th entry, the others are empty. */
  ghost predicate Built(copy: HashTable<Var>, rows: seq<Row>, b: nat, k: nat, f: set<object>)
    reads copy, copy.table, f
  {
    b < |rows| && k <= |rows[b].chain| && copy.Nodes() <= f && copy !in f && copy.table !in f &&
    |copy.chains| == |rows| && BuiltChains(copy.chains, rows, b, k, f)
  }

  ghost predicate BuiltChains(chains: seq<seq<Node<Var>>>, rows: seq<Row>, b: nat, k: nat, f: set<object>)
    requires |chains| == |rows| && b < |rows| && k <= |rows[b].chain|
    reads f
  {
    (forall i :: 0 <= i < b ==> ChainDenotes(chains[i], MirrorRow(rows[i]), f)) &&
    ChainDenotes(chains[b], Turned(rows[b], k), f) &&
    forall i :: b < i < |rows| ==> chains[i] == []
  }

  lemma BuiltNext(chains: seq<seq<Node<Var>>>, rows: seq<Row>, b: nat, k: nat, n: Node<Var>, f: set<object>,
                  g: set<object>)
    requires |chains| == |rows| && b < |rows| && k < |rows[b].chain| && BuiltChains(chains, rows, b, k, f) && f <= g
    requires NodeDenotes(n, Entry(rows[b].chain[k].name, Mirror(rows[b].chain[k].v)), g)
    ensures BuiltChains(chains[b := [n] + chains[b]], rows, b, k + 1, g)
  {
    hide NodeDenotes, Mirror, MirrorRow;
    forall i | 0 <= i < b ensures ChainDenotes(chains[i], MirrorRow(rows[i]), g) {
      ChainMore(chains[i], MirrorRow(rows[i]), f, g);
    }
    ChainMore(chains[b], Turned(rows[b], k), f, g);
    TurnedMore(rows[b], k);
    var c, t := [n] + chains[b], Turned(rows[b], k + 1);
    assert forall i :: 1 <= i < |c| ==> c[i] == chains[b][i - 1] && t.chain[i] == Turned(rows[b], k).chain[i - 1];
  }

  /** The name to be added is not there yet. */
  lemma NotThere(copy: HashTable<Var>, row: Row, b: nat, k: nat, f: set<object>)
    requires copy.Valid() && b < |copy.chains| && k < |row.chain| && ChainDenotes(copy.chains[b], Turned(row, k), f)
    requires Bucket(|copy.chains|, row.chain[k].name) == b
    requires forall i :: 0 <= i < k ==> row.chain[i].name != row.chain[k].name
    ensures Lookup(copy.Abs(), row.chain[k].name).None?
  {
    hide Bucket, Mirror, Denotes;
    var c := Entries(copy.chains[b]);
    assert copy.Abs().buckets[b] == c;
    forall i | 0 <= i < |c| ensures c[i].name != row.chain[k].name {
      assert NodeDenotes(copy.chains[b][i], Turned(row, k).chain[i], f);
      assert Turned(row, k).chain[i].name == row.chain[k - 1 - i].name;
    }
    FindAt(c, row.chain[k].name, k);
  }

  /** A fresh copy of an entry's value. */
  method CopyValue(list: Node<Var>, ghost e: Entry<Tree>, ghost r: set<object>) returns (v: Var, ghost q: set<object>)
    requires NodeDenotes(list, e, r)
    ensures fresh(v) && fresh(q) && Denotes(v, Mirror(e.v), q)
    decreases e, 6
  {
    hide DataDenotes, Mirror;
    assert Denotes(list.v, e.v, r);
    v := new Var();
    q := OpCopy(v, list.v, e.v, r);
  }

  lemma NodeHolds(n: Node<Var>, e: Entry<Tree>, q: set<object>, g: set<object>)
    requires n in g && n.name == e.name && Denotes(n.v, Mirror(e.v), q) && q <= g
    ensures NodeDenotes(n, Entry(e.name, Mirror(e.v)), g)
  {
    hide DataDenotes, Mirror;
    DenotesMore(n.v.kind, n.v.data, Mirror(e.v), q, g);
  }

  /** One entry: a fresh copy of its value goes to the head of the same bucket. */
  method CloneNode(list: Node<Var>, copy: HashTable<Var>, ghost rows: seq<Row>, ghost b: nat, ghost k: nat,
                   ghost r: set<object>, ghost f: set<object>)
    returns (ghost g: set<object>)
    requires copy.Valid() && Built(copy, rows, b, k, f) && k < |rows[b].chain|
    requires NodeDenotes(list, rows[b].chain[k], r)
    requires Bucket(|rows|, list.name) == b && forall i :: 0 <= i < k ==> rows[b].chain[i].name != list.name
    modifies copy, copy.table
    ensures copy.Valid() && Built(copy, rows, b, k + 1, g) && fresh(g - f) && f <= g
    decreases rows[b].chain[k], 7
  {
    hide Bucket, Mirror, ChainDenotes, DataDenotes, Turned, MirrorRow, BuiltChains, Denotes, NodeDenotes;
    ghost var e := rows[b].chain[k];
    SameName(list, e, r);
    var v;
    ghost var q;
    v, q := CopyValue(list, e, r);
    LastChain(copy.chains, rows, b, k, f);
    NotThere(copy, rows[b], b, k, f);
    g := Insert(list.name, v, copy, rows, b, k, f, q);
  }

  lemma SameName(n: Node<Var>, e: Entry<Tree>, r: set<object>)
    requires NodeDenotes(n, e, r)
    ensures n.name == e.name
  {
  }

  lemma LastChain(chains: seq<seq<Node<Var>>>, rows: seq<Row>, b: nat, k: nat, f: set<object>)
    requires |chains| == |rows| && b < |rows| && k <= |rows[b].chain| && BuiltChains(chains, rows, b, k, f)
    ensures ChainDenotes(chains[b], Turned(rows[b], k), f)
  {
    hide ChainDenotes, Turned, MirrorRow;
  }

  /** map_add of a copied value. */
  method Insert(name: Name, v: Var, copy: HashTable<Var>, ghost rows: seq<Row>, ghost b: nat, ghost k: nat,
                ghost f: set<object>, ghost q: set<object>)
    returns (ghost g: set<object>)
    requires copy.Valid() && Built(copy, rows, b, k, f) && k < |rows[b].chain| && name == rows[b].chain[k].name
    requires Bucket(|rows|, name) == b && Lookup(copy.Abs(), name).None?
    requires Denotes(v, Mirror(rows[b].chain[k].v), q) && copy !in q && copy.table !in q
    modifies copy, copy.table
    ensures copy.Valid() && Built(copy, rows, b, k + 1, g) && fresh(g - f - q) && g >= f + q
  {
    hide Bucket, Mirror, ChainDenotes, DataDenotes, Turned, MirrorRow, BuiltChains, NodeDenotes;
    ghost var was := copy.chains;
    var n, isNew := copy.Add(name, v);
    g := f + q + {n};
    NodeHolds(n, rows[b].chain[k], q, g);
    BuiltNext(was, rows, b, k, n, f, g);
  }

  lemma NodeOf(m: HashTable<Var>, t: Tree, r: set<object>, b: nat, k: nat)
    requires DataDenotes(MAP, Members(m), t, r) && b < |t.rows| && k < |t.rows[b].chain|
    ensures b < |m.chains| && k < |m.chains[b]| && NodeDenotes(m.chains[b][k], t.rows[b].chain[k], r)
    ensures Bucket(|t.rows|, m.chains[b][k].name) == b
    ensures forall i :: 0 <= i < k ==> t.rows[b].chain[i].name != m.chains[b][k].name
  {
    hide Bucket, Denotes;
    assert ChainDenotes(m.chains[b], t.rows[b], r);
    assert Placed(m.chains[b], |m.chains|, b);
    forall i | 0 <= i < k ensures t.rows[b].chain[i].name != m.chains[b][k].name {
      assert NodeDenotes(m.chains[b][i], t.rows[b].chain[i], r);
    }
  }

  lemma ChainOfRow(m: HashTable<Var>, t: Tree, r: set<object>, b: nat)
    requires DataDenotes(MAP, Members(m), t, r) && b < |t.rows|
    ensures |m.chains| == |t.rows| == m.table.Length && |m.chains[b]| == |t.rows[b].chain| &&
            Linked(m.table[b], m.chains[b])
  {
    hide Bucket, Denotes, NodeDenotes;
    assert ChainDenotes(m.chains[b], t.rows[b], r);
  }

  /** The inner loop: one chain, front to back. */
  method CloneChain(m: HashTable<Var>, copy: HashTable<Var>, b: nat, ghost t: Tree, ghost r: set<object>,
                    ghost f: set<object>)
    returns (ghost g: set<object>)
    requires t.Map? && DataDenotes(MAP, Members(m), t, r) && b < m.table.Length && b < |t.rows|
    requires copy.Valid() && Built(copy, t.rows, b, 0, f) && copy !in r && copy.table !in r
    modifies copy, copy.table
    ensures copy.Valid() && Built(copy, t.rows, b, |t.rows[b].chain|, g) && fresh(g - f) && f <= g
    ensures DataDenotes(MAP, Members(m), t, r)
    decreases t, 1, 0
  {
    hide Bucket, Built, NodeDenotes, DataDenotes, Linked;
    InSource(m, t, r);
    ChainOfRow(m, t, r, b);
    var list := m.table[b];
    ghost var k := 0;
    g := f;
    HeadOf(list, m.chains[b]);
    while list != null
      invariant 0 <= k <= |t.rows[b].chain| && |m.chains| == |t.rows| && |m.chains[b]| == |t.rows[b].chain|
      invariant list == NodeAt(m.chains[b], k)
      invariant copy.Valid() && Built(copy, t.rows, b, k, g) && fresh(g - f) && f <= g
      invariant DataDenotes(MAP, Members(m), t, r)
      decreases |t.rows[b].chain| - k
    {
      NodeOf(m, t, r, b, k);
      g := CloneNode(list, copy, t.rows, b, k, r, g);
      ChainOfRow(m, t, r, b);
      NextIn(m.table[b], m.chains[b], k);
      list := list.next;
      k := k + 1;
    }
  }

  lemma InSource(m: HashTable<Var>, t: Tree, r: set<object>)
    requires t.Map? && DataDenotes(MAP, Members(m), t, r)
    ensures m in r && m.table in r && m.Nodes() <= r
  {
  }

  lemma HeadOf(head: Node?<Var>, c: seq<Node<Var>>)
    requires Linked(head, c)
    ensures head == NodeAt(c, 0)
  {
  }

  lemma NextIn(head: Node?<Var>, c: seq<Node<Var>>, k: nat)
    requires Linked(head, c) && k < |c|
    ensures c[k].next == NodeAt(c, k + 1)
  {
  }

  lemma NextRow(chains: seq<seq<Node<Var>>>, rows: seq<Row>, b: nat, f: set<object>)
    requires |chains| == |rows| && b + 1 < |rows| && BuiltChains(chains, rows, b, |rows[b].chain|, f)
    ensures BuiltChains(chains, rows, b + 1, 0, f)
  {
    hide NodeDenotes, Mirror, MirrorRow;
    TurnedAll(rows[b]);
    assert Turned(rows[b + 1], 0).chain == [] by { TurnedNone(rows[b + 1]); }
  }

  lemma TurnedNone(row: Row)
    ensures Turned(row, 0).chain == []
  {
  }

  lemma NoRows(chains: seq<seq<Node<Var>>>, rows: seq<Row>)
    requires |chains| == |rows| > 0 && forall i :: 0 <= i < |chains| ==> chains[i] == []
    ensures BuiltChains(chains, rows, 0, 0, {})
  {
    TurnedNone(rows[0]);
    hide Turned;
  }

  lemma AllRows(copy: HashTable<Var>, t: Tree, f: set<object>, all: set<object>)
    requires t.Map? && |t.rows| > 0 && copy.Valid() && f <= all && copy in all && copy.table in all
    requires var b := |t.rows| - 1; Built(copy, t.rows, b, |t.rows[b].chain|, f)
    ensures DataDenotes(MAP, Members(copy), Mirror(t), all)
  {
    hide NodeDenotes, Bucket, MirrorRow, Turned;
    var n := |t.rows|;
    TurnedAll(t.rows[n - 1]);
    MirrorRows(t);
    forall i | 0 <= i < n ensures ChainDenotes(copy.chains[i], Mirror(t).rows[i], all) {
      ChainMore(copy.chains[i], MirrorRow(t.rows[i]), f, all);
    }
  }

  lemma MirrorRows(t: Tree)
    requires t.Map?
    ensures |Mirror(t).rows| == |t.rows| && forall i :: 0 <= i < |t.rows| ==> Mirror(t).rows[i] == MirrorRow(t.rows[i])
  {
  }

  /** The outer loop, over the buckets. */
  method CloneChains(m: HashTable<Var>, copy: HashTable<Var>, ghost t: Tree, ghost r: set<object>)
    returns (ghost f: set<object>)
    requires t.Map? && DataDenotes(MAP, Members(m), t, r) && m.table.Length == |t.rows| > 0
    requires copy.Valid() && Built(copy, t.rows, 0, 0, {}) && copy !in r && copy.table !in r
    modifies copy, copy.table
    ensures copy.Valid() && fresh(f) && copy !in f && copy.table !in f
    ensures Built(copy, t.rows, |t.rows| - 1, |t.rows[|t.rows| - 1].chain|, f)
    decreases t, 1, 1
  {
    hide Bucket, NodeDenotes, ChainDenotes, BuiltChains, DataDenotes;
    f := {};
    var i := 0;
    while true
      invariant 0 <= i < m.table.Length == |t.rows| && DataDenotes(MAP, Members(m), t, r)
      invariant copy.Valid() && fresh(f) && Built(copy, t.rows, i, 0, f)
      decreases m.table.Length - i
    {
      f := CloneChain(m, copy, i, t, r, f);
      if i + 1 == m.table.Length {
        return;
      }
      NextRow(copy.chains, t.rows, i, f);
      i := i + 1;
    }
  }

  /** map_table_clone */
  method MapTableClone(m: HashTable<Var>, ghost t: Tree, ghost r: set<object>)
    returns (copy: HashTable<Var>, ghost f: set<object>)
    requires DataDenotes(MAP, Members(m), t, r)
    ensures fresh(f) && DataDenotes(MAP, Members(copy), Mirror(t), f) && Same(t, Mirror(t))
    decreases t, 2
  {
    hide Bucket, NodeDenotes, ChainDenotes, BuiltChains, Same;
    copy := new HashTable<Var>(m.table.Length);
    EmptyChains(copy, t.rows);
    f := CloneChains(m, copy, t, r);
    ghost var all := f + {copy, copy.table};
    AllRows(copy, t, f, all);
    MirrorIsSame(t);
    f := all;
  }

  lemma EmptyChains(copy: HashTable<Var>, rows: seq<Row>)
    requires copy.Valid() && copy.Nodes() == {} && |copy.chains| == |rows|
    ensures Built(copy, rows, 0, 0, {})
  {
    hide Bucket;
    assert forall i :: 0 <= i < |copy.chains| && copy.chains[i] != [] ==> copy.chains[i][0] in copy.Nodes();
    NoRows(copy.chains, rows);
  }

  // ----- op_copy -----

  /** Same type and size: a number or a string is overwritten in place, a container is replaced. */
  method Overwrite(a: Var, b: Var, ghost t: Tree, ghost r: set<object>) returns (ghost q: set<object>)
    requires Denotes(b, t, r) && Typed(a) && a !in r && Own(a) !! r
    requires a.data != Nothing && b.data != Nothing && SameShape(a, b)
    modifies a, Own(a)
    ensures Denotes(a, Mirror(t), q) && Same(t, Mirror(t)) && q !! r
    ensures forall o :: o in q ==> o == a || o in old(Own(a)) || fresh(o)
    decreases t, 4
  {
    MirrorIsSame(t);
    if a.data.Number? {
      a.data.cell.d := b.data.cell.d;
      q := {a, a.data.cell};
    } else if a.data.Text? {
      q := {a, a.data.bytes};
      CopyInto(a.data.bytes, b.data.bytes);
    } else {
      var d;
      ghost var f;
      d, f := NewData(b, t, r);
      a.data := d;
      q := {a} + f;
      DenotesMore(a.kind, d, Mirror(t), f, q);
    }
  }

  /** memcpy over a buffer of the same size. */
  method CopyInto(dst: array<Byte>, src: array<Byte>)
    requires dst.Length == src.Length && dst != src
    modifies dst
    ensures dst[..] == src[..]
  {
    var i := 0;
    while i < src.Length
      invariant 0 <= i <= src.Length && forall j :: 0 <= j < i ==> dst[j] == src[j]
    {
      dst[i] := src[i];
      i := i + 1;
    }
  }

  predicate SameShape(a: Var, b: Var)
    reads a, b
  {
    a.kind == b.kind &&
    match (a.data, b.data)
    case (Text(x), Text(y)) => x.Length == y.Length
    case _ => true
  }

  /** The destination is empty or of another shape: its data becomes a fresh copy. */
  method Replace(a: Var, b: Var, ghost t: Tree, ghost r: set<object>) returns (ghost q: set<object>)
    requires Denotes(b, t, r) && a !in r && b.data != Nothing
    modifies a
    ensures Denotes(a, Mirror(t), q) && Same(t, Mirror(t)) && q !! r && forall o :: o in q ==> o == a || fresh(o)
    decreases t, 4
  {
    hide DataDenotes, Same;
    MirrorIsSame(t);
    var d;
    ghost var f;
    d, f := NewData(b, t, r);
    a.data := d;
    a.kind := b.kind;
    q := {a} + f;
    DenotesMore(a.kind, d, Mirror(t), f, q);
  }

  /** op_copy. q is all that the destination consists of afterwards: nothing of it is part of the source. */
  method OpCopy(a: Var, b: Var, ghost t: Tree, ghost r: set<object>) returns (ghost q: set<object>)
    requires Denotes(b, t, r) && Typed(a) && a !in r && Own(a) !! r
    modifies a, Own(a)
    ensures Denotes(a, Mirror(t), q) && Same(t, Mirror(t)) && Denotes(b, t, r) && q !! r
    ensures forall o :: o in q ==> o == a || o in old(Own(a)) || fresh(o)
    decreases t, 5
  {
    MirrorIsSame(t);
    if b.data == Nothing {
      a.data := Nothing;
      a.kind := b.kind;
      q := {a};
    } else if a.data != Nothing && SameShape(a, b) {
      q := Overwrite(a, b, t, r);
    } else {
      q := Replace(a, b, t, r);
    }
  }

  // ----- the copy stands for the same value -----

  /** A copy of a copy is the original again, chain by chain. */
  lemma {:induction false} MirrorTwice(t: Tree)
    ensures Mirror(Mirror(t)) == t
    decreases t
  {
    match t
    case Arr(es) =>
      forall i | 0 <= i < |es| ensures Mirror(Mirror(t)).elems[i] == es[i] {
        if es[i].Some? { MirrorTwice(es[i].value); }
      }
      assert Mirror(Mirror(t)).elems == es;
    case Map(rows) =>
      forall b | 0 <= b < |rows| ensures Mirror(Mirror(t)).rows[b] == rows[b] {
        MirrorRowTwice(rows[b]);
      }
      assert Mirror(Mirror(t)).rows == rows;
    case _ =>
  }

  lemma {:induction false} MirrorRowTwice(row: Row)
    ensures MirrorRow(MirrorRow(row)) == row
    decreases row
  {
    var n, twice := |row.chain|, MirrorRow(MirrorRow(row)).chain;
    forall i | 0 <= i < n ensures twice[i] == row.chain[i] {
      MirrorTwice(row.chain[i].v);
      assert MirrorRow(row).chain[n - 1 - i] == Entry(row.chain[i].name, Mirror(row.chain[i].v));
    }
    assert twice == row.chain;
  }

  lemma NamesMirrored(row: Row, i: nat)
    requires i < |row.chain|
    ensures var n := |row.chain|;
            MirrorRow(row).chain[i] == Entry(row.chain[n - 1 - i].name, Mirror(row.chain[n - 1 - i].v))
  {
    hide Mirror;
  }

  lemma FoundMirrored(row: Row, name: Name, k: nat)
    requires DistinctNames(row.chain) && k < |row.chain| && row.chain[k].name == name
    ensures FindIn(MirrorRow(row).chain, name) == MirrorElem(FindIn(row.chain, name))
  {
    hide Mirror, MirrorRow, FindIn;
    var c, d, n := row.chain, MirrorRow(row).chain, |row.chain|;
    FindAt(c, name, k);
    forall i | 0 <= i < n - 1 - k ensures d[i].name != name { NamesMirrored(row, i); }
    NamesMirrored(row, n - 1 - k);
    FindAt(d, name, n - 1 - k);
  }

  /** Turning a chain of distinct names around does not change what is found under a name. */
  lemma LookupMirrored(row: Row, name: Name)
    requires DistinctNames(row.chain)
    ensures FindIn(MirrorRow(row).chain, name) == MirrorElem(FindIn(row.chain, name))
  {
    hide Mirror, MirrorRow, FindIn, DistinctNames;
    var c, d, n := row.chain, MirrorRow(row).chain, |row.chain|;
    if k: nat :| k < n && c[k].name == name {
      FoundMirrored(row, name, k);
    } else {
      FindAt(c, name, n);
      forall i | 0 <= i < n ensures d[i].name != name { NamesMirrored(row, i); }
      FindAt(d, name, n);
    }
  }

  function ChainsOf(rows: seq<Row>): (t: Table<Tree>)
    ensures |t.buckets| == |rows| && forall b :: 0 <= b < |rows| ==> t.buckets[b] == rows[b].chain
  {
    Table(seq(|rows|, b requires 0 <= b < |rows| => rows[b].chain))
  }

  /** A cloned map answers every lookup with the copy of what the original answers, which is the same value. */
  lemma CloneLooksUp(t: Tree, name: Name)
    requires t.Map? && |t.rows| > 0 && forall b :: 0 <= b < |t.rows| ==> DistinctNames(t.rows[b].chain)
    ensures Lookup(ChainsOf(Mirror(t).rows), name) == MirrorElem(Lookup(ChainsOf(t.rows), name))
    ensures SameElem(Lookup(ChainsOf(t.rows), name), Lookup(ChainsOf(Mirror(t).rows), name))
  {
    hide Bucket, Mirror, MirrorRow, DistinctNames, Same;
    MirrorRows(t);
    LookupMirrored(t.rows[Bucket(|t.rows|, name)], name);
    var e := Lookup(ChainsOf(t.rows), name);
    if e.Some? { MirrorIsSame(e.value); }
  }

  lemma SameFound(row: Row, q: Row, name: Name, k: nat)
    requires SameRow(row, q) && DistinctNames(q.chain) && k < |row.chain| && row.chain[k].name == name
    requires FindIn(row.chain, name) == Some(row.chain[k].v)
    ensures SameElem(FindIn(row.chain, name), FindIn(q.chain, name))
  {
    hide Same, FindIn;
    var e := row.chain[k];
    assert e in row.chain && HasSame(q, e);
    var f :| f in q.chain && f.name == name && Same(e.v, f.v);
    var j :| 0 <= j < |q.chain| && q.chain[j] == f;
    FindAt(q.chain, name, j);
  }

  /** Whatever copy is the same value answers every lookup alike, if no bucket has a name twice. */
  lemma SameLooksUp(row: Row, q: Row, name: Name)
    requires SameRow(row, q) && DistinctNames(row.chain) && DistinctNames(q.chain)
    ensures SameElem(FindIn(row.chain, name), FindIn(q.chain, name))
  {
    hide FindIn, DistinctNames;
    var c, d := row.chain, q.chain;
    if k: nat :| k < |c| && c[k].name == name {
      FindFirst(c, name, k);
      SameFound(row, q, name, k);
    } else {
      FindAt(c, name, |c|);
      forall j | 0 <= j < |d| ensures d[j].name != name {
        assert d[j] in d;
      }
      FindAt(d, name, |d|);
    }
  }

  lemma FindFirst(c: Chain<Tree>, name: Name, k: nat)
    requires DistinctNames(c) && k < |c| && c[k].name == name
    ensures FindIn(c, name) == Some(c[k].v)
  {
    FindAt(c, name, k);
  }
}
