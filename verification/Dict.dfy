/** The chained hash table as an object, and its iterator. */
module Dict {
  import opened Basics
  import opened DictChains

  const INITIAL_SIZE: nat := 4

  /** The initial size, doubled any number of times. */
  predicate Doubling(n: nat) {
    n == INITIAL_SIZE || (n > INITIAL_SIZE && n % 2 == 0 && Doubling(n / 2))
  }

  lemma DoublingNext(n: nat)
    requires Doubling(n)
    ensures Doubling(2 * n) && n >= INITIAL_SIZE
  {
    assert 2 * n / 2 == n;
  }

  /** There is none between one of them and its double. */
  lemma {:induction false} DoublingsApart(a: nat, b: nat)
    requires Doubling(a) && Doubling(b) && a < b
    ensures 2 * a <= b
  {
    if a > 4 {
      DoublingsApart(a / 2, b / 2);
    } else {
      DoublingNext(b / 2);
    }
  }

  /** The least such size that is enough. */
  method NextPower(size: nat) returns (i: nat)
    ensures Doubling(i) && i >= size && (i == INITIAL_SIZE || i / 2 < size)
  {
    i := INITIAL_SIZE;
    while i < size
      invariant Doubling(i) && (i == INITIAL_SIZE || i / 2 < size)
      decreases size - i
    {
      DoublingNext(i);
      i := i * 2;
    }
  }

  /** Asked for one of them, one gets just that. */
  lemma ExactSize(size: nat, i: nat)
    requires Doubling(size) && Doubling(i) && i >= size && (i == 4 || i / 2 < size)
    ensures i == size
  {
    if i > size {
      DoublingsApart(size, i);
    }
  }

  class HashTable<K(==,!new), V> {
    const hash: K -> nat
    var table: array<Chain<K, V>>
    var used: nat
    ghost var contents: map<K, V>

    /** The table is the map, has room, and its size is the initial one doubled. */
    ghost predicate Valid()
      reads this, table
    {
      && TableOK(table[..], hash) && IsMap(table[..], hash, contents)
      && used == |contents| == Total(table[..]) && used <= table.Length
      && (table.Length == 0 || Doubling(table.Length))
    }

    constructor (hash: K -> nat)
      ensures Valid() && contents == map[] && this.hash == hash && fresh(table)
    {
      this.hash, used, contents := hash, 0, map[];
      table := new Chain<K, V>[0];
    }

    /** Moves all entries to a new table; false if it would be too small. */
    method Expand(size: nat) returns (ok: bool)
      requires Valid()
      modifies this`table, this`used
      ensures Valid() && ok == (old(used) <= size)
      ensures ok ==> fresh(table) && Doubling(table.Length) && table.Length >= size
      ensures ok ==> table.Length == 4 || table.Length / 2 < size
      ensures !ok ==> table == old(table)
    {
      if used > size {
        return false;
      }
      var realsize := NextPower(size);
      DoublingNext(realsize);
      var n := new Chain<K, V>[realsize](_ => Nil);
      assert n[..] == Empty(realsize);
      RehashKeeps(table[..], hash, realsize);
      MoveAll(n, used);
      table := n;
      ok := true;
    }

    /** Prepends all entries to the chains they belong to in the new table; `left` counts
        those still to be moved. */
    method MoveAll(n: array<Chain<K, V>>, total: nat)
      requires n != table && n.Length > 0 && total == Total(table[..])
      modifies n
      ensures n[..] == MoveTable(old(n[..]), hash, table[..])
    {
      var i, left := 0, total;
      ghost var goal := MoveTable(n[..], hash, table[..]);
      while i < table.Length && left > 0
        invariant i <= table.Length && left == Total(table[i..])
        invariant MoveTable(n[..], hash, table[i..]) == goal
        decreases table.Length - i
      {
        assert table[i..][0] == table[i] && table[i..][1..] == table[i + 1..];
        MoveOne(n, table[i]);
        left := left - Length(table[i]);
        i := i + 1;
      }
      NothingLeft(n[..], hash, table[i..]);
    }

    method MoveOne(n: array<Chain<K, V>>, chain: Chain<K, V>)
      requires n.Length > 0
      modifies n
      ensures n[..] == MoveChain(old(n[..]), hash, chain)
    {
      var he := chain;
      while he.Entry?
        invariant MoveChain(n[..], hash, he) == MoveChain(old(n[..]), hash, chain)
        decreases he
      {
        var h := Slot(hash(he.key), n.Length);
        ghost var was := n[..];
        n[h] := Entry(he.key, he.val, n[h]);
        assert n[..] == Insert(was, hash, he.key, he.val);
        he := he.next;
      }
    }

    /** Four slots, or twice as many when there are as many entries. */
    ghost function Roomy(): nat
      reads this
    {
      if table.Length == 0 then 4 else if used == table.Length then 2 * table.Length else table.Length
    }

    /** Makes room for one more entry. */
    method ExpandIfNeeded()
      requires Valid()
      modifies this`table, this`used
      ensures Valid() && used < table.Length && (fresh(table) || table == old(table))
      ensures table.Length == old(Roomy())
    {
      if table.Length == 0 {
        var _ := Expand(INITIAL_SIZE);
        ExactSize(4, table.Length);
      } else if used == table.Length {
        ghost var double := table.Length * 2;
        DoublingNext(table.Length);
        var _ := Expand(table.Length * 2);
        ExactSize(double, table.Length);
      }
    }

    /** The slot a new key goes to; none if the key is there already. */
    method KeyIndex(key: K) returns (index: Option<nat>)
      requires Valid()
      modifies this`table, this`used
      ensures Valid() && used < table.Length && (fresh(table) || table == old(table))
      ensures index == if key in contents then None else Some(Slot(hash(key), table.Length))
      ensures table.Length == old(Roomy())
    {
      ExpandIfNeeded();
      var h := Slot(hash(key), table.Length);
      assert Lookup(table[..], hash, key) == At(table[h], key);
      var he := table[h];
      while he.Entry?
        invariant At(he, key) == At(table[h], key)
        decreases he
      {
        if he.key == key {
          return None;
        }
        he := he.next;
      }
      index := Some(h);
    }

    /** A chain takes the place of another, and the contents change in one key. */
    method SetChain(h: nat, c: Chain<K, V>, ghost now: map<K, V>)
      requires TableOK(table[..], hash) && IsMap(table[..], hash, contents) && h < table.Length
      requires ChainOK(c, hash, table.Length, h)
      requires forall k :: Slot(hash(k), table.Length) == h ==> At(c, k) == if k in now then Some(now[k]) else None
      requires forall k :: Slot(hash(k), table.Length) != h ==>
        (k in now <==> k in contents) && (k in contents ==> now[k] == contents[k])
      modifies this`contents, table
      ensures TableOK(table[..], hash) && IsMap(table[..], hash, now) && contents == now
      ensures Total(table[..]) == old(Total(table[..])) - Length(old(table[h])) + Length(c)
      ensures table[..] == old(table[..])[h := c]
    {
      MapWith(table[..], hash, contents, h, c, now);
      TotalWith(table[..], h, c);
      ghost var was := table[..];
      table[h] := c;
      contents := now;
      assert table[..] == was[h := c];
    }

    method Add(key: K, val: V) returns (ok: bool)
      requires Valid()
      modifies this, table
      ensures Valid() && (fresh(table) || table == old(table))
      ensures ok == (key !in old(contents)) && contents == if ok then old(contents)[key := val] else old(contents)
      ensures table.Length == old(Roomy())
    {
      var index := KeyIndex(key);
      if index.None? {
        return false;
      }
      var h := index.value;
      assert Lookup(table[..], hash, key) == At(table[h], key);
      assert ChainOK(table[..][h], hash, table.Length, h);
      forall k | Slot(hash(k), table.Length) == h
        ensures At(table[h], k) == if k in contents then Some(contents[k]) else None {
        assert Lookup(table[..], hash, k) == At(table[h], k);
      }
      SetChain(h, Entry(key, val, table[h]), contents[key := val]);
      used := used + 1;
      ok := true;
    }

    /** The value of a key. */
    method Find(key: K) returns (val: Option<V>)
      requires Valid()
      ensures val == if key in contents then Some(contents[key]) else None
    {
      if table.Length == 0 {
        assert Lookup(table[..], hash, key) == None;
        return None;
      }
      var h := Slot(hash(key), table.Length);
      assert Lookup(table[..], hash, key) == At(table[h], key);
      var he := table[h];
      while he.Entry?
        invariant At(he, key) == At(table[h], key)
        decreases he
      {
        if he.key == key {
          return Some(he.val);
        }
        he := he.next;
      }
      val := None;
    }

    /** Adds an entry or gives the one there a new value; true if it was added. */
    method Replace(key: K, val: V) returns (added: bool)
      requires Valid()
      modifies this, table
      ensures Valid() && (fresh(table) || table == old(table))
      ensures added == (key !in old(contents)) && contents == old(contents)[key := val]
      ensures table.Length == old(Roomy())
    {
      added := Add(key, val);
      if added {
        return;
      }
      Update(key, val);
    }

    method Update(key: K, val: V)
      requires Valid() && key in contents
      modifies this`contents, table
      ensures Valid() && contents == old(contents)[key := val]
    {
      assert Lookup(table[..], hash, key).Some?;
      var h := Slot(hash(key), table.Length);
      ghost var size := table.Length;
      assert ChainOK(table[..][h], hash, size, h);
      SetValAt(table[h], key, val);
      forall k | Slot(hash(k), size) == h ensures At(table[h], k) == if k in contents then Some(contents[k]) else None {
        assert Lookup(table[..], hash, k) == At(table[h], k);
      }
      SetChain(h, SetVal(table[h], key, val), contents[key := val]);
    }

    method Delete(key: K) returns (ok: bool)
      requires Valid()
      modifies this`used, this`contents, table
      ensures Valid() && ok == (key in old(contents)) && contents == old(contents) - {key}
      ensures forall i :: 0 <= i < table.Length && i != Slot(hash(key), table.Length) ==> table[i] == old(table[i])
    {
      if table.Length == 0 {
        assert Lookup(table[..], hash, key) == None;
        assert contents - {key} == contents;
        return false;
      }
      var h := Slot(hash(key), table.Length);
      assert Lookup(table[..], hash, key) == At(table[h], key);
      if At(table[h], key).None? {
        assert contents - {key} == contents;
        return false;
      }
      ghost var size := table.Length;
      assert ChainOK(table[..][h], hash, size, h);
      WithoutAt(table[h], key);
      forall k | Slot(hash(k), size) == h ensures At(table[h], k) == if k in contents then Some(contents[k]) else None {
        assert Lookup(table[..], hash, k) == At(table[h], k);
      }
      assert |contents - {key}| == |contents| - 1 by { OneLess(contents, key); }
      SetChain(h, Without(table[h], key), contents - {key});
      used := used - 1;
      ok := true;
    }
  }

  lemma OneLess<K, V>(m: map<K, V>, k: K)
    requires k in m
    ensures |m - {k}| == |m| - 1
  {
    assert (m - {k}).Keys == m.Keys - {k};
    assert |m.Keys - {k}| == |m.Keys| - 1;
  }

  lemma {:induction false} NothingLeft<K, V>(t: Table<K, V>, hash: K -> nat, from: Table<K, V>)
    requires t != [] && (from == [] || Total(from) == 0)
    ensures MoveTable(t, hash, from) == t
    decreases |from|
  {
    if from != [] {
      NothingLeft(t, hash, from[1..]);
    }
  }

  // ---------- iteration ----------

  /** An iterator: the slot it is in, the entry last returned, and what comes after it in
      the slot's chain, noted before the entry is returned. */
  class DictIterator<K(==,!new), V> {
    const ht: HashTable<K, V>
    var index: int
    var entry: Chain<K, V>
    var nextEntry: Chain<K, V>

    constructor (ht: HashTable<K, V>)
      ensures this.ht == ht && index == -1 && entry == Nil && nextEntry == Nil
    {
      this.ht, index, entry, nextEntry := ht, -1, Nil, Nil;
    }

    /** The entries still to be returned. */
    ghost function Remaining(): seq<(K, V)>
      reads this, ht, ht.table
    {
      Ahead(ht.table[..], index, entry, nextEntry)
    }

    ghost predicate Placed()
      reads this, ht, ht.table
    {
      PlacedIn(ht.table[..], ht.hash, index, entry, nextEntry)
    }

    /** On to the next entry of the chain, or the first of the next slot; false at the end. */
    method Advance() returns (on: bool)
      requires TableOK(ht.table[..], ht.hash) && Placed()
      modifies this`index, this`entry
      ensures !on ==> Remaining() == [] && old(Remaining()) == [] && Placed()
      ensures on ==>
        -1 <= old(index) <= index < ht.table.Length &&
        PlacedIn(ht.table[..], ht.hash, index, entry, if entry == Nil then Nil else entry.next)
      ensures on ==> old(Remaining()) == List(entry) + Flat(ht.table[..], index + 1)
      ensures on && index == old(index) ==> old(entry).Entry?
    {
      if entry == Nil {
        index := index + 1;
        if index >= ht.table.Length {
          return false;
        }
        entry := ht.table[index];
        assert ChainOK(ht.table[..][index], ht.hash, ht.table.Length, index);
      } else {
        ghost var was := entry;
        entry := nextEntry;
        forall k | At(entry, k).Some? ensures Slot(ht.hash(k), ht.table.Length) == index {
          assert At(was, k).Some?;
        }
      }
      on := true;
    }

    method Next() returns (e: Option<(K, V)>)
      requires TableOK(ht.table[..], ht.hash) && Placed()
      modifies this
      ensures Placed()
      ensures old(Remaining()) == [] ==> e == None
      ensures old(Remaining()) != [] ==> e == Some(old(Remaining())[0]) && Remaining() == old(Remaining())[1..]
      ensures e.Some? ==> 0 <= index < ht.table.Length && Slot(ht.hash(e.value.0), ht.table.Length) == index
    {
      ghost var goal := Remaining();
      while true
        invariant Placed() && Remaining() == goal
        decreases ht.table.Length - index, entry.Entry?
      {
        var on := Advance();
        if !on {
          return None;
        }
        if entry.Entry? {
          HeadOf(entry, Flat(ht.table[..], index + 1));
          nextEntry := entry.next;
          assert At(entry, entry.key).Some?;
          return Some((entry.key, entry.val));
        }
      }
      e := None;
    }
  }

  lemma HeadOf<K, V>(entry: Chain<K, V>, rest: seq<(K, V)>)
    requires entry.Entry?
    ensures var s := List(entry) + rest; s[0] == (entry.key, entry.val) && s[1..] == List(entry.next) + rest
  {
    var x := (entry.key, entry.val);
    Regroup([x], List(entry.next), rest);
    OneBefore(x, List(entry.next) + rest);
  }

  lemma OneBefore<T>(x: T, rest: seq<T>)
    ensures ([x] + rest)[0] == x && ([x] + rest)[1..] == rest
  {
  }

  lemma FirstAndRest<T>(s: seq<T>)
    requires s != []
    ensures [s[0]] + s[1..] == s
  {
  }

  ghost function Ahead<K, V>(t: Table<K, V>, index: int, entry: Chain<K, V>, nextEntry: Chain<K, V>): seq<(K, V)> {
    if index < -1 then [] else (if entry == Nil then [] else List(nextEntry)) + Flat(t, index + 1)
  }

  /** The entry last returned, and those after it in its chain, belong in the slot. */
  ghost predicate PlacedIn<K(!new), V>(t: Table<K, V>, hash: K -> nat, index: int, entry: Chain<K, V>,
      nextEntry: Chain<K, V>) {
    && index >= -1
    && (entry.Entry? ==>
          && 0 <= index < |t| && nextEntry == entry.next
          && forall k {:trigger At(entry, k)} :: At(entry, k).Some? ==> Slot(hash(k), |t|) == index)
  }

  lemma {:induction false} FlatSame<K, V>(t: Table<K, V>, u: Table<K, V>, i: nat)
    requires |t| == |u| && forall j :: i <= j < |t| ==> t[j] == u[j]
    ensures Flat(t, i) == Flat(u, i)
    decreases |t| - i
  {
    if i < |t| {
      FlatSame(t, u, i + 1);
    }
  }

  ghost function KeysOf<K, V>(s: seq<(K, V)>): set<K> {
    set p | p in s :: p.0
  }

  method SweepOne<K(==,!new), V>(ht: HashTable<K, V>, it: DictIterator<K, V>, doomed: set<K>)
      returns (e: Option<(K, V)>)
    requires ht.Valid() && it.ht == ht && it.Placed()
    modifies ht`used, ht`contents, ht.table, it
    ensures ht.Valid() && it.Placed() && ht.table == old(ht.table)
    ensures old(it.Remaining()) == [] ==> e == None && ht.contents == old(ht.contents)
    ensures old(it.Remaining()) != [] ==>
      e == Some(old(it.Remaining())[0]) && it.Remaining() == old(it.Remaining())[1..]
    ensures e.Some? ==> ht.contents == old(ht.contents) - (doomed * {e.value.0})
  {
    e := it.Next();
    if e.Some? && e.value.0 in doomed {
      ghost var was := ht.table[..];
      var _ := ht.Delete(e.value.0);
      FlatSame(was, ht.table[..], it.index + 1);
      assert doomed * {e.value.0} == {e.value.0};
    }
  }

  /** Goes on through a table and deletes entries as they are returned. */
  method SweepOn<K(==,!new), V>(ht: HashTable<K, V>, it: DictIterator<K, V>, doomed: set<K>)
      returns (visited: seq<(K, V)>)
    requires ht.Valid() && it.ht == ht && it.Placed()
    modifies ht`used, ht`contents, ht.table, it
    ensures ht.Valid() && visited == old(it.Remaining())
    ensures ht.contents == old(ht.contents) - (doomed * KeysOf(visited))
    decreases |it.Remaining()|
  {
    ghost var left, m := it.Remaining(), ht.contents;
    var e := SweepOne(ht, it, doomed);
    if e.None? {
      return [];
    }
    FirstAndRest(left);
    var rest := SweepOn(ht, it, doomed);
    visited := [e.value] + rest;
    Unseen(m, doomed, e.value, rest);
  }

  /** Every entry that was there is returned once, though entries are deleted meanwhile. */
  method Sweep<K(==,!new), V>(ht: HashTable<K, V>, doomed: set<K>) returns (visited: seq<(K, V)>)
    requires ht.Valid()
    modifies ht`used, ht`contents, ht.table
    ensures ht.Valid() && ht.contents == old(ht.contents) - doomed
    ensures visited == Flat(old(ht.table[..]), 0)
  {
    FlatIsMap(ht.table[..], ht.hash, ht.contents);
    ghost var all, m := Flat(ht.table[..], 0), ht.contents;
    var it := new DictIterator(ht);
    visited := SweepOn(ht, it, doomed);
    AllSeen(m, doomed, all);
  }

  lemma Unseen<K, V>(m: map<K, V>, doomed: set<K>, p: (K, V), rest: seq<(K, V)>)
    ensures m - (doomed * {p.0}) - (doomed * KeysOf(rest)) == m - (doomed * KeysOf([p] + rest))
  {
    assert KeysOf([p] + rest) == {p.0} + KeysOf(rest);
  }

  lemma AllSeen<K, V>(m: map<K, V>, doomed: set<K>, all: seq<(K, V)>)
    requires forall k :: k in m ==> (k, m[k]) in all
    ensures m - (doomed * KeysOf(all)) == m - doomed
  {
    forall k | k in m ensures k in KeysOf(all) {
      assert (k, m[k]) in all;
    }
  }
}
