/** The processes of the lease protocol as objects that update their tables in place. */
module LimiterProcs {
  import opened Basics
  import opened LimiterLeases
  import opened LimiterRate

  /** What unsetting an entry comes to; `Wrong` is the failed assertion. */
  datatype Unset = Gone | NotFound | Wrong

  type Tables = map<nat, map<nat, Addr>>

  predicate Has(limiters: Tables, key: Key) { key.limiter in limiters && key.sha1 in limiters[key.limiter] }

  /** A table of tables as one table. */
  ghost function Flatten(limiters: Tables): (m: map<Key, Addr>) {
    map l: nat, k: nat | l in limiters && k in limiters[l] :: Key(l, k) := limiters[l][k]
  }

  lemma FlattenAt(limiters: Tables, key: Key)
    ensures key in Flatten(limiters) <==> Has(limiters, key)
    ensures Has(limiters, key) ==> Flatten(limiters)[key] == limiters[key.limiter][key.sha1]
  {
    assert key == Key(key.limiter, key.sha1);
  }

  /** Tables that differ in one key, where the second has an entry or none. */
  ghost predicate SameBut(limiters: Tables, more: Tables, key: Key) {
    forall k: Key :: k != key ==>
      Has(limiters, k) == Has(more, k) && (Has(limiters, k) ==> limiters[k.limiter][k.sha1] == more[k.limiter][k.sha1])
  }

  lemma FlattenSame(limiters: Tables, more: Tables, key: Key)
    requires SameBut(limiters, more, key)
    ensures forall k :: k != key ==>
      (k in Flatten(limiters)) == (k in Flatten(more)) &&
        (k in Flatten(more) ==> Flatten(limiters)[k] == Flatten(more)[k])
  {
    forall k: Key ensures k in Flatten(limiters) <==> Has(limiters, k) { FlattenAt(limiters, k); }
    forall k: Key ensures k in Flatten(more) <==> Has(more, k) { FlattenAt(more, k); }
  }

  lemma FlattenSet(limiters: Tables, more: Tables, key: Key)
    requires SameBut(limiters, more, key) && Has(more, key)
    ensures Flatten(more) == Flatten(limiters)[key := more[key.limiter][key.sha1]]
  {
    FlattenSame(limiters, more, key);
    FlattenAt(more, key);
  }

  lemma FlattenUnset(limiters: Tables, more: Tables, key: Key)
    requires SameBut(limiters, more, key) && !Has(more, key)
    ensures Flatten(more) == Flatten(limiters) - {key}
  {
    FlattenSame(limiters, more, key);
    FlattenAt(more, key);
  }

  /** The Lua table, by limiter and then by key. An inner table is never empty. */
  class LimiterTable {
    var limiters: Tables

    ghost predicate Valid()
      reads this
    {
      forall l :: l in limiters ==> limiters[l] != map[]
    }

    ghost function Flat(): map<Key, Addr>
      reads this
    {
      Flatten(limiters)
    }

    constructor ()
      ensures Valid() && Flat() == map[]
    {
      limiters := map[];
    }

    method Find(key: Key) returns (at: Option<Addr>)
      ensures at == if key in Flat() then Some(Flat()[key]) else None
    {
      FlattenAt(limiters, key);
      if key.limiter !in limiters {
        return None;
      }
      var limit := limiters[key.limiter];
      at := if key.sha1 in limit then Some(limit[key.sha1]) else None;
    }

    method Set(key: Key, at: Addr)
      requires Valid()
      modifies this
      ensures Valid() && Flat() == old(Flat())[key := at]
    {
      ghost var was := limiters;
      var limit: map<nat, Addr> := if key.limiter in limiters then limiters[key.limiter] else map[];
      limit := limit[key.sha1 := at];
      assert key.sha1 in limit;
      limiters := limiters[key.limiter := limit];
      FlattenSet(was, limiters, key);
    }

    /** The entry goes, and must be the one named, if one is named. */
    method UnsetValue(key: Key, at: Option<Addr>) returns (r: Unset)
      requires Valid()
      modifies this
      ensures Valid()
      ensures r == if key !in old(Flat()) then NotFound
                   else if at.Some? && old(Flat())[key] != at.value then Wrong else Gone
      ensures Flat() == if r == Gone then old(Flat()) - {key} else old(Flat())
    {
      FlattenAt(limiters, key);
      if !(key.limiter in limiters && key.sha1 in limiters[key.limiter]) {
        return NotFound;
      }
      if at.Some? && limiters[key.limiter][key.sha1] != at.value {
        return Wrong;
      }
      ghost var was := limiters;
      RemoveEntry(key);
      FlattenUnset(was, limiters, key);
      r := Gone;
    }

    method RemoveEntry(key: Key)
      requires Valid() && Has(limiters, key)
      modifies this
      ensures Valid() && SameBut(old(limiters), limiters, key) && !Has(limiters, key)
    {
      var limit: map<nat, Addr> := limiters[key.limiter] - {key.sha1};
      if limit == map[] {
        assert forall k :: k in limiters[key.limiter] ==> k == key.sha1 || k in limit;
        limiters := limiters - {key.limiter};
      } else {
        limiters := limiters[key.limiter := limit];
      }
    }
  }

  /** The protocol's state as the manager knows it, with the workers as they are. */
  ghost function Seen(s: State, table: map<Key, Addr>, counters: map<Addr, Counter>): State {
    s.(table := table, counters := counters)
  }

  /** A counter can go when nothing is left of its count and it is a second old. */
  predicate Due(count: int, limit: int, interval: int, age: int)
    requires interval > 0
  {
    (count == 0 || CurrentValue(limit, interval, count, age) == 0) && age >= 1
  }

  /** Less than one is left of the count. */
  predicate Spent(count: int, limit: int, interval: int, age: int)
    requires interval > 0
  {
    count as real - limit as real * (age as real / interval as real) < 1.0
  }

  lemma DueIff(count: int, limit: int, interval: int, age: int)
    requires interval > 0
    ensures Due(count, limit, interval, age) <==> age >= 1 && (count == 0 || Spent(count, limit, interval, age))
  {
    CurrentValueIs(limit, interval, count, age);
  }

  class Manager {
    const table: LimiterTable
    var counters: map<Addr, Counter>

    ghost predicate Valid()
      reads this, table
    {
      table.Valid() && TableOK(table.Flat(), counters)
    }

    ghost function View(s: State): State
      reads this, table
    {
      Seen(s, table.Flat(), counters)
    }

    constructor ()
      ensures Valid() && counters == map[] && table.Flat() == map[] && fresh(table)
    {
      counters := map[];
      table := new LimiterTable();
    }

    /** Answers a request from worker w with the counter for a key, a new one if need be. */
    method OnRequest(key: Key, spare: Addr, ghost s: State, ghost w: nat) returns (reply: Down)
      requires Valid() && spare !in counters && w < |s.workers|
      modifies this, table
      ensures Valid() && Respond(View(s), w, reply.key, reply.at) ==
        LimiterLeases.OnRequest(old(View(s)), w, key, spare)
      ensures reply == Response(key, reply.at) && reply.at in counters
    {
      var found := table.Find(key);
      var at := spare;
      if found.Some? {
        at := found.value;
        Refer(at, 1);
      } else {
        Create(key, spare);
      }
      reply := Response(key, at);
    }

    method Refer(at: Addr, n: int)
      requires Valid() && at in counters
      modifies this
      ensures Valid() && table.Flat() == old(table.Flat())
      ensures counters == old(counters)[at := old(counters[at]).(refcount := old(counters[at]).refcount + n)]
    {
      ghost var was := counters;
      counters := counters[at := counters[at].(refcount := counters[at].refcount + n)];
      ChangedTableOK(table.Flat(), was, at, counters[at]);
    }

    method Create(key: Key, spare: Addr)
      requires Valid() && key !in table.Flat() && spare !in counters
      modifies this, table
      ensures Valid() && table.Flat() == old(table.Flat())[key := spare] &&
        counters == old(counters)[spare := Counter(key, 1, 0)]
    {
      FreshTableOK(table.Flat(), counters, spare, Counter(key, 1, 0));
      counters := counters[spare := Counter(key, 1, 0)];
      table.Set(key, spare);
    }

    /** Frees a counter: unsets it and gives its memory back. */
    method Reap(at: Addr, ghost s: State)
      requires Valid() && at in counters
      modifies this, table
      ensures Valid() && View(s) == LimiterLeases.Reap(old(View(s)), at)
    {
      var key := counters[at].key;
      ReapedTableOK(table.Flat(), counters, at, key);
      var r := table.UnsetValue(key, Some(at));
      assert r == Gone;
      counters := counters - {at};
    }

    /** Whether a counter can be freed; what to ask all workers if they are in the way.
        When forced, it is freed all the same. */
    method ReadyToReap(at: Addr, limit: int, interval: int, age: int, force: bool)
        returns (ready: bool, ask: Option<Down>)
      requires at in counters && interval > 0
      ensures var c := counters[at].count;
        var due := force || (age >= 1 && (c == 0 || Spent(c, limit, interval, age)));
        && (ready <==> due && (counters[at].refcount == 0 || force))
        && (ask.Some? <==> due && counters[at].refcount != 0)
      ensures ask.Some? ==> ask.value == ReleaseRequest(counters[at].key, at)
    {
      var c := counters[at];
      DueIff(c.count, limit, interval, age);
      ready, ask := false, None;
      if force || Due(c.count, limit, interval, age) {
        if c.refcount == 0 {
          ready := true;
        } else {
          ask := Some(ReleaseRequest(c.key, at));
          ready := force;
        }
      }
    }

    /** The reaper's look at a counter; the messages it sends go to every worker. */
    method Examine(at: Addr, limit: int, interval: int, age: int, ghost s: State)
        returns (ask: Option<Down>, ghost due: bool)
      requires Valid() && at in counters && interval > 0
      modifies this, table
      ensures Valid()
      ensures var c := old(counters[at]).count; due <==> age >= 1 && (c == 0 || Spent(c, limit, interval, age))
      ensures ask.Some? <==> due && old(counters[at]).refcount != 0
      ensures ask.Some? ==> ask.value.ReleaseRequest?
      ensures Sent(View(s), ask) == LimiterLeases.Examine(old(View(s)), at, due)
    {
      var c := counters[at];
      DueIff(c.count, limit, interval, age);
      due := Due(c.count, limit, interval, age);
      var ready;
      ready, ask := ReadyToReap(at, limit, interval, age, false);
      if ready {
        Reap(at, s);
      }
    }

    /** A worker gave a counter back. At no reference, it joins the reaper's list anew, which
        looks at it at once. */
    method OnReleaseResponse(at: Addr, limit: int, interval: int, age: int, ghost s: State)
        returns (ask: Option<Down>, ghost due: bool)
      requires Valid() && at in counters && interval > 0
      modifies this, table
      ensures Valid()
      ensures var c := old(counters[at]).count; due <==> age >= 1 && (c == 0 || Spent(c, limit, interval, age))
      ensures ask == None && View(s) == LimiterLeases.OnReleaseResponse(old(View(s)), at, due)
    {
      DueIff(counters[at].count, limit, interval, age);
      Refer(at, -1);
      ask := None;
      due := Due(counters[at].count, limit, interval, age);
      if counters[at].refcount == 0 {
        ask, due := Examine(at, limit, interval, age, s);
      }
    }
  }

  /** A message to all workers, if there is one. */
  ghost function Sent(s: State, ask: Option<Down>): State {
    if ask.Some? && ask.value.ReleaseRequest? then s.(workers := AskAll(s.workers, ask.value.key, ask.value.at)) else s
  }

  /** A worker's end: its table of counters. */
  class WorkerEnd {
    const table: LimiterTable

    ghost predicate Valid()
      reads this, table
    {
      table.Valid()
    }

    constructor ()
      ensures Valid() && table.Flat() == map[] && fresh(table)
    {
      table := new LimiterTable();
    }

    /** The counter to use, or a request to the manager for it. */
    method FindOrAsk(key: Key) returns (at: Option<Addr>, ask: Option<Up>)
      requires Valid()
      ensures at.Some? <==> key in table.Flat()
      ensures at.Some? ==> at.value == table.Flat()[key] && ask == None
      ensures at.None? ==> ask == Some(Request(key))
    {
      at := table.Find(key);
      ask := if at.Some? then None else Some(Request(key));
    }

    /** Takes a message from the manager. A failed assertion is what `wrong` reports. */
    method Take(m: Down, ghost me: Worker) returns (answer: Option<Up>, wrong: bool)
      requires Valid() && me.table == table.Flat() && me.down != [] && me.down[0] == m
      modifies table
      ensures Valid()
      ensures wrong <==> m.ReleaseRequest? && m.key in me.table && me.table[m.key] != m.at
      ensures !wrong ==>
        AfterTaking(me) == Worker(table.Flat(), me.down[1..], me.up + (if answer.Some? then [answer.value] else []))
    {
      answer, wrong := None, false;
      match m
      case Response(key, at) => table.Set(key, at);
      case ReleaseRequest(key, at) =>
        var r := table.UnsetValue(key, Some(at));
        if r == Gone {
          answer := Some(ReleaseResponse(key, at));
        }
        wrong := r == Wrong;
      assert me.up + [] == me.up;
    }
  }
}
