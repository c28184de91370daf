/** Chains of entries and tables of chains: what a chained hash table holds. */
module DictChains {
  import opened Basics

  datatype Chain<K, V> = Nil | Entry(key: K, val: V, next: Chain<K, V>)

  type Table<K, V> = seq<Chain<K, V>>

  function At<K(==), V>(c: Chain<K, V>, k: K): Option<V> {
    if c.Nil? then None else if c.key == k then Some(c.val) else At(c.next, k)
  }

  predicate NoDup<K(==), V>(c: Chain<K, V>) {
    c.Nil? || (At(c.next, c.key) == None && NoDup(c.next))
  }

  function Length<K, V>(c: Chain<K, V>): nat {
    if c.Nil? then 0 else 1 + Length(c.next)
  }

  function Slot(h: nat, size: nat): (i: nat)
    requires size > 0
    ensures i < size
  {
    h % size
  }

  function Lookup<K(==), V>(t: Table<K, V>, hash: K -> nat, k: K): Option<V> {
    if t == [] then None else At(t[Slot(hash(k), |t|)], k)
  }

  function Total<K, V>(t: Table<K, V>): nat {
    if t == [] then 0 else Length(t[0]) + Total(t[1..])
  }

  /** The keys of a chain all belong in its slot, and no key is there twice. */
  ghost predicate ChainOK<K(!new), V>(c: Chain<K, V>, hash: K -> nat, size: nat, i: nat)
    requires size > 0
  {
    NoDup(c) && forall k {:trigger At(c, k)} :: At(c, k).Some? ==> Slot(hash(k), size) == i
  }

  ghost predicate TableOK<K(!new), V>(t: Table<K, V>, hash: K -> nat) {
    forall i {:trigger ChainOK(t[i], hash, |t|, i)} :: 0 <= i < |t| ==> ChainOK(t[i], hash, |t|, i)
  }

  /** A table is a map. */
  ghost predicate IsMap<K(!new), V>(t: Table<K, V>, hash: K -> nat, m: map<K, V>) {
    forall k {:trigger Lookup(t, hash, k)} :: Lookup(t, hash, k) == if k in m then Some(m[k]) else None
  }

  lemma {:induction false} TotalWith<K, V>(t: Table<K, V>, i: nat, c: Chain<K, V>)
    requires i < |t|
    ensures Total(t[i := c]) == Total(t) - Length(t[i]) + Length(c)
  {
    if i > 0 {
      assert t[i := c][1..] == t[1..][i - 1 := c];
      TotalWith(t[1..], i - 1, c);
    } else {
      assert t[i := c][1..] == t[1..];
    }
  }

  // ---------- one chain changes ----------

  lemma TableWith<K(!new), V>(t: Table<K, V>, hash: K -> nat, i: nat, c: Chain<K, V>)
    requires TableOK(t, hash) && i < |t| && ChainOK(c, hash, |t|, i)
    ensures TableOK(t[i := c], hash)
    ensures forall k :: Lookup(t[i := c], hash, k) == if Slot(hash(k), |t|) == i then At(c, k) else Lookup(t, hash, k)
  {
  }

  /** A chain, and with it the map, that differs in one key. */
  lemma MapWith<K(!new), V>(t: Table<K, V>, hash: K -> nat, m: map<K, V>, i: nat, c: Chain<K, V>, n: map<K, V>)
    requires TableOK(t, hash) && IsMap(t, hash, m) && i < |t| && ChainOK(c, hash, |t|, i)
    requires forall k :: Slot(hash(k), |t|) == i ==> At(c, k) == if k in n then Some(n[k]) else None
    requires forall k :: Slot(hash(k), |t|) != i ==> (k in n <==> k in m) && (k in m ==> n[k] == m[k])
    ensures TableOK(t[i := c], hash) && IsMap(t[i := c], hash, n)
  {
    TableWith(t, hash, i, c);
  }

  function Without<K(==), V>(c: Chain<K, V>, k: K): Chain<K, V> {
    if c.Nil? then Nil else if c.key == k then c.next else Entry(c.key, c.val, Without(c.next, k))
  }

  lemma {:induction false} WithoutAt<K(!new), V>(c: Chain<K, V>, k: K)
    requires NoDup(c)
    ensures NoDup(Without(c, k)) && Length(Without(c, k)) == Length(c) - (if At(c, k).Some? then 1 else 0)
    ensures forall j :: At(Without(c, k), j) == if j == k then None else At(c, j)
  {
    if c.Entry? && c.key != k {
      WithoutAt(c.next, k);
    }
  }

  function SetVal<K(==), V>(c: Chain<K, V>, k: K, v: V): Chain<K, V> {
    if c.Nil? then Nil else if c.key == k then Entry(k, v, c.next) else Entry(c.key, c.val, SetVal(c.next, k, v))
  }

  lemma {:induction false} SetValAt<K(!new), V>(c: Chain<K, V>, k: K, v: V)
    requires NoDup(c) && At(c, k).Some?
    ensures NoDup(SetVal(c, k, v)) && Length(SetVal(c, k, v)) == Length(c)
    ensures forall j :: At(SetVal(c, k, v), j) == if j == k then Some(v) else At(c, j)
  {
    if c.key != k {
      SetValAt(c.next, k, v);
    }
  }

  // ---------- moving to a larger table ----------

  /** An entry in front of the chain it belongs to. */
  function Insert<K, V>(t: Table<K, V>, hash: K -> nat, k: K, v: V): (r: Table<K, V>)
    requires t != []
    ensures |r| == |t|
  {
    var h := Slot(hash(k), |t|);
    t[h := Entry(k, v, t[h])]
  }

  function MoveChain<K, V>(t: Table<K, V>, hash: K -> nat, c: Chain<K, V>): (r: Table<K, V>)
    requires t != []
    ensures |r| == |t|
    decreases c
  {
    if c.Nil? then t else MoveChain(Insert(t, hash, c.key, c.val), hash, c.next)
  }

  function MoveTable<K, V>(t: Table<K, V>, hash: K -> nat, from: Table<K, V>): (r: Table<K, V>)
    requires t != []
    ensures |r| == |t|
    decreases |from|
  {
    if from == [] then t else MoveTable(MoveChain(t, hash, from[0]), hash, from[1..])
  }

  lemma InsertOK<K(!new), V>(t: Table<K, V>, hash: K -> nat, k: K, v: V)
    requires t != [] && TableOK(t, hash) && Lookup(t, hash, k) == None
    ensures TableOK(Insert(t, hash, k, v), hash) && Total(Insert(t, hash, k, v)) == Total(t) + 1
    ensures forall j :: Lookup(Insert(t, hash, k, v), hash, j) == if j == k then Some(v) else Lookup(t, hash, j)
  {
    var h := Slot(hash(k), |t|);
    var c := Entry(k, v, t[h]);
    assert ChainOK(t[h], hash, |t|, h);
    assert ChainOK(c, hash, |t|, h);
    TableWith(t, hash, h, c);
    TotalWith(t, h, c);
  }

  lemma {:induction false} MoveChainOK<K(!new), V>(t: Table<K, V>, hash: K -> nat, c: Chain<K, V>)
    requires t != [] && TableOK(t, hash) && NoDup(c)
    requires forall k :: At(c, k).Some? ==> Lookup(t, hash, k) == None
    ensures var r := MoveChain(t, hash, c); TableOK(r, hash) && Total(r) == Total(t) + Length(c)
    ensures forall k :: Lookup(MoveChain(t, hash, c), hash, k) == if At(c, k).Some? then At(c, k)
      else Lookup(t, hash, k)
    decreases c
  {
    if c.Entry? {
      assert At(c, c.key).Some?;
      InsertOK(t, hash, c.key, c.val);
      forall k | At(c.next, k).Some? ensures k != c.key && At(c, k).Some? {
      }
      MoveChainOK(Insert(t, hash, c.key, c.val), hash, c.next);
    }
  }

  /** The entry of a key in the part of a table still to be moved. */
  function Later<K(==), V>(from: Table<K, V>, hash: K -> nat, size: nat, i: nat, k: K): Option<V>
    requires size > 0 && i + |from| == size
  {
    var h := Slot(hash(k), size);
    if i <= h then At(from[h - i], k) else None
  }

  lemma {:induction false} MoveTableOK<K(!new), V>(t: Table<K, V>, hash: K -> nat, from: Table<K, V>, size: nat, i: nat)
    requires t != [] && TableOK(t, hash) && size > 0 && i + |from| == size
    requires forall j :: 0 <= j < |from| ==> ChainOK(from[j], hash, size, i + j)
    requires forall k :: Lookup(t, hash, k).Some? ==> Slot(hash(k), size) < i
    ensures var r := MoveTable(t, hash, from); TableOK(r, hash) && Total(r) == Total(t) + Total(from)
    ensures forall k :: (var l := Later(from, hash, size, i, k);
      Lookup(MoveTable(t, hash, from), hash, k) == if l.Some? then l else Lookup(t, hash, k))
    decreases |from|
  {
    if from != [] {
      var c, u, rest := from[0], MoveChain(t, hash, from[0]), from[1..];
      assert ChainOK(c, hash, size, i + 0);
      MoveChainOK(t, hash, c);
      forall j | 0 <= j < |rest| ensures ChainOK(rest[j], hash, size, i + 1 + j) {
        assert rest[j] == from[j + 1];
      }
      MoveTableOK(u, hash, rest, size, i + 1);
      forall k
        ensures Lookup(MoveTable(u, hash, rest), hash, k) ==
          if Later(from, hash, size, i, k).Some? then Later(from, hash, size, i, k) else Lookup(t, hash, k)
      {
        LaterSteps(from, hash, size, i, k);
      }
    }
  }

  lemma LaterSteps<K(!new), V>(from: Table<K, V>, hash: K -> nat, size: nat, i: nat, k: K)
    requires size > 0 && i + |from| == size && from != [] && ChainOK(from[0], hash, size, i)
    ensures var l, r := Later(from, hash, size, i, k), Later(from[1..], hash, size, i + 1, k);
      && (At(from[0], k).Some? ==> l == At(from[0], k) && r == None)
      && (At(from[0], k).None? ==> l == r)
  {
  }

  function Empty<K, V>(size: nat): (t: Table<K, V>)
    ensures |t| == size
  {
    seq(size, _ => Nil)
  }

  lemma {:induction false} EmptyOK<K(!new), V>(hash: K -> nat, size: nat)
    ensures TableOK(Empty<K, V>(size), hash) && Total(Empty<K, V>(size)) == 0
    ensures forall k :: Lookup(Empty<K, V>(size), hash, k) == None
  {
    if size > 0 {
      assert Empty<K, V>(size)[1..] == Empty(size - 1);
      EmptyOK<K, V>(hash, size - 1);
    }
  }

  /** Moving all entries to an empty table of any size keeps the map, and how many there are. */
  lemma RehashKeeps<K(!new), V>(t: Table<K, V>, hash: K -> nat, size: nat)
    requires TableOK(t, hash) && size > 0
    ensures var r := MoveTable(Empty(size), hash, t);
      && TableOK(r, hash) && Total(r) == Total(t)
      && forall k :: Lookup(r, hash, k) == Lookup(t, hash, k)
  {
    EmptyOK<K, V>(hash, size);
    if t != [] {
      MoveTableOK(Empty(size), hash, t, |t|, 0);
    }
  }

  // ---------- going through a table ----------

  function List<K, V>(c: Chain<K, V>): (s: seq<(K, V)>) {
    if c.Nil? then [] else [(c.key, c.val)] + List(c.next)
  }

  /** All entries from slot i on. */
  function Flat<K, V>(t: Table<K, V>, i: nat): (s: seq<(K, V)>)
    decreases |t| - i
  {
    if i >= |t| then [] else List(t[i]) + Flat(t, i + 1)
  }

  lemma {:induction false} InList<K(!new), V>(c: Chain<K, V>, k: K, v: V)
    requires NoDup(c)
    ensures (k, v) in List(c) <==> At(c, k) == Some(v)
  {
    if c.Entry? {
      InList(c.next, k, v);
    }
  }

  lemma {:induction false} InFlat<K(!new), V>(t: Table<K, V>, hash: K -> nat, i: nat, k: K, v: V)
    requires TableOK(t, hash) && i <= |t|
    ensures (k, v) in Flat(t, i) <==> t != [] && i <= Slot(hash(k), |t|) && Lookup(t, hash, k) == Some(v)
    decreases |t| - i
  {
    if i < |t| {
      assert ChainOK(t[i], hash, |t|, i);
      InList(t[i], k, v);
      InFlat(t, hash, i + 1, k, v);
    }
  }

  predicate KeysApart<K(==), V>(s: seq<(K, V)>) {
    forall i, j :: 0 <= i < j < |s| ==> s[i].0 != s[j].0
  }

  lemma {:induction false} ListApart<K(!new), V>(c: Chain<K, V>)
    requires NoDup(c)
    ensures KeysApart(List(c)) && |List(c)| == Length(c)
  {
    if c.Entry? {
      ListApart(c.next);
      forall p | p in List(c.next) ensures p.0 != c.key {
        InList(c.next, p.0, p.1);
      }
    }
  }

  lemma {:induction false} FlatApart<K(!new), V>(t: Table<K, V>, hash: K -> nat, i: nat)
    requires TableOK(t, hash) && i <= |t|
    ensures KeysApart(Flat(t, i)) && |Flat(t, i)| == Total(t[i..])
    decreases |t| - i
  {
    if i < |t| {
      assert ChainOK(t[i], hash, |t|, i);
      ListApart(t[i]);
      FlatApart(t, hash, i + 1);
      var a, b := List(t[i]), Flat(t, i + 1);
      forall p, q | p in a && q in b ensures p.0 != q.0 {
        InList(t[i], p.0, p.1);
        InFlat(t, hash, i + 1, q.0, q.1);
      }
      assert t[i..][1..] == t[i + 1..];
    } else {
      assert t[i..] == [];
    }
  }

  /** Going through all slots meets each entry of the map exactly once. */
  lemma FlatIsMap<K(!new), V>(t: Table<K, V>, hash: K -> nat, m: map<K, V>)
    requires TableOK(t, hash) && IsMap(t, hash, m)
    ensures KeysApart(Flat(t, 0)) && |Flat(t, 0)| == Total(t)
    ensures forall k, v :: (k, v) in Flat(t, 0) <==> k in m && m[k] == v
  {
    FlatApart(t, hash, 0);
    assert t[0..] == t;
    forall k, v ensures (k, v) in Flat(t, 0) <==> k in m && m[k] == v {
      InFlat(t, hash, 0, k, v);
      assert Lookup(t, hash, k) == if k in m then Some(m[k]) else None;
    }
  }
}
