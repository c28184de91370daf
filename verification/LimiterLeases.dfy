/** The lease of shared limiter counters: the manager owns them, workers keep pointers to
    them, and a count of references says when one may be freed. */
module LimiterLeases {

  type Addr = nat
  datatype Key = Key(limiter: nat, sha1: nat)
  datatype Counter = Counter(key: Key, refcount: int, count: int)

  datatype Down = Response(key: Key, at: Addr) | ReleaseRequest(key: Key, at: Addr)
  datatype Up = Request(key: Key) | ReleaseResponse(key: Key, at: Addr)

  /** A worker's table, the messages on their way to it, and those on their way from it. */
  datatype Worker = Worker(table: map<Key, Addr>, down: seq<Down>, up: seq<Up>)

  /** `fault` is a failed assertion, or a use of memory that was freed. */
  datatype State = State(table: map<Key, Addr>, counters: map<Addr, Counter>, workers: seq<Worker>, fault: bool)

  datatype Step =
    | Check(w: nat, key: Key, increment: int)                 // a worker evaluates a limit condition
    | WorkerTakes(w: nat, active: bool, increment: int)       // a worker handles its next message
    | ManagerTakes(w: nat, spare: Addr, due: bool)            // the manager handles one from worker w
    | Tick(at: Addr, due: bool)                               // the reaper looks at a counter

  function Fault(s: State): State { s.(fault := true) }

  function Count(s: State, at: Addr, increment: int): State {
    if at !in s.counters then Fault(s)
    else if increment > 0
      then s.(counters := s.counters[at := s.counters[at].(count := s.counters[at].count + increment)])
    else s
  }

  function WithWorker(s: State, w: nat, worker: Worker): State
    requires w < |s.workers|
  {
    s.(workers := s.workers[w := worker])
  }

  function DoCheck(s: State, w: nat, key: Key, increment: int): State
    requires w < |s.workers|
  {
    var me := s.workers[w];
    if key in me.table then Count(s, me.table[key], increment)
    else WithWorker(s, w, me.(up := me.up + [Request(key)]))
  }

  /** A response is put in the table; if the request that waited is still there, it goes on
      with the counter, under the key found in the counter itself. */
  function OnResponse(s: State, w: nat, key: Key, at: Addr, active: bool, increment: int): State
    requires w < |s.workers|
  {
    var me := s.workers[w];
    var t := WithWorker(s, w, me.(table := me.table[key := at]));
    if !active then t
    else if at !in s.counters then Fault(t)
    else Count(WithWorker(t, w, me.(table := me.table[key := at][s.counters[at].key := at])), at, increment)
  }

  function OnReleaseRequest(s: State, w: nat, key: Key, at: Addr): State
    requires w < |s.workers|
  {
    var me := s.workers[w];
    if key !in me.table then s
    else if me.table[key] != at then Fault(s)
    else WithWorker(s, w, me.(table := me.table - {key}, up := me.up + [ReleaseResponse(key, at)]))
  }

  function DoWorkerTakes(s: State, w: nat, active: bool, increment: int): State
    requires w < |s.workers|
  {
    var me := s.workers[w];
    if me.down == [] then s
    else
      var t := WithWorker(s, w, me.(down := me.down[1..]));
      match me.down[0]
      case Response(key, at) => OnResponse(t, w, key, at, active, increment)
      case ReleaseRequest(key, at) => OnReleaseRequest(t, w, key, at)
  }

  function Reap(s: State, at: Addr): State
    requires at in s.counters
  {
    var key := s.counters[at].key;
    if key in s.table && s.table[key] != at then Fault(s)
    else s.(table := s.table - {key}, counters := s.counters - {at})
  }

  function Ask(w: Worker, key: Key, at: Addr): Worker { w.(down := w.down + [ReleaseRequest(key, at)]) }

  function AskAll(workers: seq<Worker>, key: Key, at: Addr): (r: seq<Worker>)
    ensures |r| == |workers| && forall i :: 0 <= i < |r| ==> r[i] == Ask(workers[i], key, at)
  {
    seq(|workers|, i requires 0 <= i < |workers| => Ask(workers[i], key, at))
  }

  /** The reaper's look at a counter: free it, ask for it back, or leave it. */
  function Examine(s: State, at: Addr, due: bool): State
    requires at in s.counters
  {
    if !due then s
    else if s.counters[at].refcount == 0 then Reap(s, at)
    else s.(workers := AskAll(s.workers, s.counters[at].key, at))
  }

  function Refer(s: State, at: Addr, n: int): State
    requires at in s.counters
  {
    s.(counters := s.counters[at := s.counters[at].(refcount := s.counters[at].refcount + n)])
  }

  function Respond(s: State, w: nat, key: Key, at: Addr): State
    requires w < |s.workers|
  {
    WithWorker(s, w, s.workers[w].(down := s.workers[w].down + [Response(key, at)]))
  }

  function OnRequest(s: State, w: nat, key: Key, spare: Addr): State
    requires w < |s.workers| && spare !in s.counters
  {
    if key in s.table then
      var at := s.table[key];
      if at !in s.counters then Fault(s) else Respond(Refer(s, at, 1), w, key, at)
    else
      Respond(s.(table := s.table[key := spare], counters := s.counters[spare := Counter(key, 1, 0)]), w, key, spare)
  }

  function OnReleaseResponse(s: State, at: Addr, due: bool): State {
    if at !in s.counters then Fault(s)
    else
      var t := Refer(s, at, -1);
      if t.counters[at].refcount == 0 then Examine(t, at, due) else t
  }

  function DoManagerTakes(s: State, w: nat, spare: Addr, due: bool): State
    requires w < |s.workers| && spare !in s.counters
  {
    var from := s.workers[w];
    if from.up == [] then s
    else
      var t := WithWorker(s, w, from.(up := from.up[1..]));
      match from.up[0]
      case Request(key) => OnRequest(t, w, key, spare)
      case ReleaseResponse(_, at) => OnReleaseResponse(t, at, due)
  }

  function Do(s: State, step: Step): State {
    match step
    case Check(w, key, increment) => if w < |s.workers| then DoCheck(s, w, key, increment) else s
    case WorkerTakes(w, active, increment) => if w < |s.workers| then DoWorkerTakes(s, w, active, increment) else s
    case ManagerTakes(w, spare, due) =>
      if w < |s.workers| && spare !in s.counters then DoManagerTakes(s, w, spare, due) else s
    case Tick(at, due) => if at in s.counters then Examine(s, at, due) else s
  }

  function Start(n: nat): State { State(map[], map[], seq(n, _ => Worker(map[], [], [])), false) }

  function Run(n: nat, steps: seq<Step>): State {
    if steps == [] then Start(n) else Do(Run(n, steps[..|steps| - 1]), steps[|steps| - 1])
  }

  // ---------- references ----------

  /** What in one worker counts as a reference to a counter: holding it, a response on its
      way, and a release on its way back. */
  function RefsOf(w: Worker, key: Key, at: Addr): nat {
    (if key in w.table && w.table[key] == at then 1 else 0)
    + multiset(w.down)[Response(key, at)] + multiset(w.up)[ReleaseResponse(key, at)]
  }

  function Refs(ws: seq<Worker>, key: Key, at: Addr): nat {
    if ws == [] then 0 else RefsOf(ws[0], key, at) + Refs(ws[1..], key, at)
  }

  lemma {:induction false} RefsWith(ws: seq<Worker>, i: nat, w: Worker, key: Key, at: Addr)
    requires i < |ws|
    ensures Refs(ws[i := w], key, at) == Refs(ws, key, at) - RefsOf(ws[i], key, at) + RefsOf(w, key, at)
  {
    if i > 0 {
      assert ws[i := w][1..] == ws[1..][i - 1 := w];
      RefsWith(ws[1..], i - 1, w, key, at);
    } else {
      assert ws[i := w][1..] == ws[1..];
    }
  }

  lemma {:induction false} RefsAtLeast(ws: seq<Worker>, i: nat, key: Key, at: Addr)
    requires i < |ws|
    ensures RefsOf(ws[i], key, at) <= Refs(ws, key, at)
  {
    if i > 0 {
      RefsAtLeast(ws[1..], i - 1, key, at);
    }
  }

  lemma {:induction false} RefsSame(ws: seq<Worker>, vs: seq<Worker>, key: Key, at: Addr)
    requires |ws| == |vs| && forall i :: 0 <= i < |ws| ==> RefsOf(ws[i], key, at) == RefsOf(vs[i], key, at)
    ensures Refs(ws, key, at) == Refs(vs, key, at)
  {
    if ws != [] {
      RefsSame(ws[1..], vs[1..], key, at);
    }
  }

  // ---------- the invariant ----------

  predicate Current(table: map<Key, Addr>, key: Key, at: Addr) { key in table && table[key] == at }

  /** A worker has only current counters, and so have its messages; a release request meets
      no other counter than the one it names. */
  ghost predicate WorkerOK(table: map<Key, Addr>, w: Worker) {
    && (forall k :: k in w.table ==> Current(table, k, w.table[k]))
    && (forall m :: m in w.down && m.Response? ==> Current(table, m.key, m.at))
    && (forall m :: m in w.up && m.ReleaseResponse? ==> Current(table, m.key, m.at))
    && (forall j :: 0 <= j < |w.down| && w.down[j].ReleaseRequest? ==> Meets(w, j))
  }

  ghost predicate Meets(w: Worker, j: nat)
    requires j < |w.down|
  {
    && (w.down[j].key in w.table ==> w.table[w.down[j].key] == w.down[j].at)
    && forall i :: 0 <= i < j && w.down[i].Response? && w.down[i].key == w.down[j].key ==> w.down[i].at == w.down[j].at
  }

  /** The manager's table and the counters are one to one. */
  ghost predicate TableOK(table: map<Key, Addr>, counters: map<Addr, Counter>) {
    && (forall k :: k in table ==> table[k] in counters && counters[table[k]].key == k)
    && (forall a :: a in counters ==> Current(table, counters[a].key, a))
  }

  ghost predicate WorkersOK(table: map<Key, Addr>, ws: seq<Worker>) {
    forall i :: 0 <= i < |ws| ==> WorkerOK(table, ws[i])
  }

  ghost predicate CountsOK(counters: map<Addr, Counter>, ws: seq<Worker>) {
    forall a :: a in counters ==> Refs(ws, counters[a].key, a) <= counters[a].refcount
  }

  ghost predicate StateOK(s: State) {
    && !s.fault && TableOK(s.table, s.counters)
    && WorkersOK(s.table, s.workers) && CountsOK(s.counters, s.workers)
  }

  /** One worker changes, and the reference counts change at least as much. */
  lemma CountsWith(c: map<Addr, Counter>, d: map<Addr, Counter>, ws: seq<Worker>, i: nat, w: Worker)
    requires CountsOK(c, ws) && i < |ws|
    requires forall a :: a in d ==> a in c && d[a].key == c[a].key
    requires forall a :: a in d ==>
      RefsOf(w, c[a].key, a) - RefsOf(ws[i], c[a].key, a) <= d[a].refcount - c[a].refcount
    ensures CountsOK(d, ws[i := w])
  {
    forall a | a in d ensures Refs(ws[i := w], d[a].key, a) <= d[a].refcount {
      RefsWith(ws, i, w, c[a].key, a);
    }
  }

  lemma OneWorkerOK(s: State, w: nat, worker: Worker)
    requires StateOK(s) && w < |s.workers| && WorkerOK(s.table, worker)
    requires forall a :: a in s.counters ==>
      RefsOf(worker, s.counters[a].key, a) <= RefsOf(s.workers[w], s.counters[a].key, a)
    ensures StateOK(WithWorker(s, w, worker))
  {
    CountsWith(s.counters, s.counters, s.workers, w, worker);
  }

  lemma CountOK(s: State, at: Addr, increment: int)
    requires StateOK(s) && at in s.counters
    ensures StateOK(Count(s, at, increment))
  {
  }

  lemma CheckOK(s: State, w: nat, key: Key, increment: int)
    requires StateOK(s) && w < |s.workers|
    ensures StateOK(DoCheck(s, w, key, increment))
  {
    var me := s.workers[w];
    assert WorkerOK(s.table, me);
    if key in me.table {
      CountOK(s, me.table[key], increment);
    } else {
      OneWorkerOK(s, w, me.(up := me.up + [Request(key)]));
    }
  }

  /** A worker once it has taken its next message off the channel and acted on it. */
  function AfterTaking(me: Worker): Worker
    requires me.down != []
  {
    var rest, m := me.down[1..], me.down[0];
    match m
    case Response(key, at) => Worker(me.table[key := at], rest, me.up)
    case ReleaseRequest(key, at) =>
      if key in me.table then Worker(me.table - {key}, rest, me.up + [ReleaseResponse(key, at)])
      else Worker(me.table, rest, me.up)
  }

  lemma AfterTakingOK(table: map<Key, Addr>, me: Worker)
    requires WorkerOK(table, me) && me.down != []
    ensures WorkerOK(table, AfterTaking(me))
    ensures me.down[0].ReleaseRequest? && me.down[0].key in me.table ==> me.table[me.down[0].key] == me.down[0].at
  {
    var r, m := AfterTaking(me), me.down[0];
    assert m.ReleaseRequest? ==> Meets(me, 0);
    forall j | 0 <= j < |r.down| && r.down[j].ReleaseRequest? ensures Meets(r, j) {
      assert r.down[j] == me.down[j + 1] && Meets(me, j + 1);
      forall i | 0 <= i < j && r.down[i].Response? && r.down[i].key == r.down[j].key
        ensures r.down[i].at == r.down[j].at {
        assert r.down[i] == me.down[i + 1];
      }
      assert m.Response? && m.key == r.down[j].key ==> me.down[0].at == me.down[j + 1].at;
    }
    forall k | k in r.table ensures Current(table, k, r.table[k]) {
    }
  }

  /** Taking a message makes no reference that was not there. */
  lemma AfterTakingRefs(me: Worker, key: Key, at: Addr)
    requires me.down != []
    requires me.down[0].ReleaseRequest? && me.down[0].key in me.table ==> me.table[me.down[0].key] == me.down[0].at
    ensures RefsOf(AfterTaking(me), key, at) <= RefsOf(me, key, at)
  {
    assert me.down == [me.down[0]] + me.down[1..];
    assert multiset(me.down) == multiset{me.down[0]} + multiset(me.down[1..]);
  }

  lemma TakenOK(s: State, w: nat)
    requires StateOK(s) && w < |s.workers| && s.workers[w].down != []
    ensures StateOK(WithWorker(s, w, AfterTaking(s.workers[w])))
  {
    var me := s.workers[w];
    AfterTakingOK(s.table, me);
    forall a | a in s.counters
      ensures RefsOf(AfterTaking(me), s.counters[a].key, a) <= RefsOf(me, s.counters[a].key, a)
    {
      AfterTakingRefs(me, s.counters[a].key, a);
    }
    OneWorkerOK(s, w, AfterTaking(me));
  }

  /** A counter that comes in a response is the manager's own for that key. */
  lemma ComesCurrent(s: State, w: nat)
    requires StateOK(s) && w < |s.workers| && s.workers[w].down != [] && s.workers[w].down[0].Response?
    ensures var m := s.workers[w].down[0]; m.at in s.counters && s.counters[m.at].key == m.key
  {
    assert WorkerOK(s.table, s.workers[w]);
    assert s.workers[w].down[0] in s.workers[w].down;
  }

  lemma ResponseTaken(s: State, w: nat, active: bool, increment: int)
    requires w < |s.workers| && s.workers[w].down != [] && s.workers[w].down[0].Response?
    requires var m := s.workers[w].down[0]; m.at in s.counters && s.counters[m.at].key == m.key
    ensures var u := WithWorker(s, w, AfterTaking(s.workers[w]));
      DoWorkerTakes(s, w, active, increment) == if active then Count(u, s.workers[w].down[0].at, increment) else u
  {
    var me := s.workers[w];
    var t := WithWorker(s, w, me.(down := me.down[1..]));
    assert t.workers[w := AfterTaking(me)] == s.workers[w := AfterTaking(me)];
    var key, at := me.down[0].key, me.down[0].at;
    assert me.table[key := at][key := at] == me.table[key := at];
    var t' := WithWorker(t, w, AfterTaking(me));
    assert t'.workers[w := AfterTaking(me)] == t'.workers;
  }

  lemma WorkerTakesResponseOK(s: State, w: nat, active: bool, increment: int)
    requires StateOK(s) && w < |s.workers| && s.workers[w].down != [] && s.workers[w].down[0].Response?
    ensures StateOK(DoWorkerTakes(s, w, active, increment))
  {
    TakenOK(s, w);
    ComesCurrent(s, w);
    ResponseTaken(s, w, active, increment);
    CountOK(WithWorker(s, w, AfterTaking(s.workers[w])), s.workers[w].down[0].at, increment);
  }

  lemma WorkerTakesReleaseOK(s: State, w: nat)
    requires StateOK(s) && w < |s.workers| && s.workers[w].down != [] && s.workers[w].down[0].ReleaseRequest?
    ensures StateOK(DoWorkerTakes(s, w, false, 0)) &&
      forall b, n :: DoWorkerTakes(s, w, b, n) == DoWorkerTakes(s, w, false, 0)
  {
    var me := s.workers[w];
    TakenOK(s, w);
    AfterTakingOK(s.table, me);
    var t := WithWorker(s, w, me.(down := me.down[1..]));
    assert t.workers[w := AfterTaking(me)] == s.workers[w := AfterTaking(me)];
    assert OnReleaseRequest(t, w, me.down[0].key, me.down[0].at) == WithWorker(s, w, AfterTaking(me));
  }

  lemma WorkerTakesOK(s: State, w: nat, active: bool, increment: int)
    requires StateOK(s) && w < |s.workers|
    ensures StateOK(DoWorkerTakes(s, w, active, increment))
  {
    if s.workers[w].down != [] {
      if s.workers[w].down[0].Response? {
        WorkerTakesResponseOK(s, w, active, increment);
      } else {
        WorkerTakesReleaseOK(s, w);
      }
    }
  }

  lemma AskedOK(table: map<Key, Addr>, w: Worker, key: Key, at: Addr)
    requires WorkerOK(table, w) && Current(table, key, at)
    ensures WorkerOK(table, Ask(w, key, at))
    ensures forall k, a :: RefsOf(Ask(w, key, at), k, a) == RefsOf(w, k, a)
  {
    var r := Ask(w, key, at);
    forall j | 0 <= j < |r.down| && r.down[j].ReleaseRequest? ensures Meets(r, j) {
      if j < |w.down| {
        assert Meets(w, j);
      } else {
        forall i | 0 <= i < j && r.down[i].Response? && r.down[i].key == key ensures r.down[i].at == at {
          assert w.down[i] in w.down;
        }
      }
    }
  }

  /** Lease safety: at no reference count, no worker has the counter, none is about to
      receive it, and none is giving it back. */
  lemma UnreferredUnheld(s: State, at: Addr, i: nat)
    requires StateOK(s) && at in s.counters && s.counters[at].refcount <= 0 && i < |s.workers|
    ensures forall k :: k in s.workers[i].table ==> s.workers[i].table[k] != at
    ensures forall m :: m in s.workers[i].down && m.Response? ==> m.at != at
    ensures forall m :: m in s.workers[i].up && m.ReleaseResponse? ==> m.at != at
  {
    var w, key := s.workers[i], s.counters[at].key;
    RefsAtLeast(s.workers, i, key, at);
    assert RefsOf(w, key, at) == 0;
    assert Response(key, at) !in multiset(w.down) && ReleaseResponse(key, at) !in multiset(w.up);
    assert WorkerOK(s.table, w);
  }

  lemma ReapOK(s: State, at: Addr)
    requires StateOK(s) && at in s.counters && s.counters[at].refcount == 0
    ensures StateOK(Reap(s, at))
  {
    var t, key := Reap(s, at), s.counters[at].key;
    assert Current(s.table, key, at);
    ReapedTableOK(s.table, s.counters, at, key);
    forall i | 0 <= i < |s.workers| ensures WorkerOK(t.table, s.workers[i]) {
      UnreferredUnheld(s, at, i);
      StillOK(s.table, t.table, s.workers[i], key);
    }
  }

  lemma ReapedTableOK(table: map<Key, Addr>, counters: map<Addr, Counter>, at: Addr, key: Key)
    requires TableOK(table, counters) && at in counters && counters[at].key == key
    ensures TableOK(table - {key}, counters - {at})
  {
  }

  lemma StillOK(table: map<Key, Addr>, less: map<Key, Addr>, w: Worker, key: Key)
    requires WorkerOK(table, w) && key in table && less == table - {key}
    requires forall k :: k in w.table ==> w.table[k] != table[key]
    requires forall m :: m in w.down && m.Response? ==> m.at != table[key]
    requires forall m :: m in w.up && m.ReleaseResponse? ==> m.at != table[key]
    ensures WorkerOK(less, w)
  {
  }

  lemma ExamineOK(s: State, at: Addr, due: bool)
    requires StateOK(s) && at in s.counters
    ensures StateOK(Examine(s, at, due))
  {
    if due && s.counters[at].refcount == 0 {
      ReapOK(s, at);
    } else if due {
      var key := s.counters[at].key;
      var t := Examine(s, at, due);
      forall i | 0 <= i < |s.workers|
        ensures WorkerOK(t.table, t.workers[i])
        ensures forall k, a :: RefsOf(t.workers[i], k, a) == RefsOf(s.workers[i], k, a)
      {
        AskedOK(s.table, s.workers[i], key, at);
      }
      forall a | a in s.counters ensures Refs(t.workers, s.counters[a].key, a) <= s.counters[a].refcount {
        RefsSame(s.workers, t.workers, s.counters[a].key, a);
      }
    }
  }

  lemma ToldOK(table: map<Key, Addr>, w: Worker, key: Key, at: Addr)
    requires WorkerOK(table, w) && Current(table, key, at)
    ensures WorkerOK(table, w.(down := w.down + [Response(key, at)]))
  {
    var r := w.(down := w.down + [Response(key, at)]);
    forall j | 0 <= j < |r.down| && r.down[j].ReleaseRequest? ensures Meets(r, j) {
      assert Meets(w, j);
    }
  }

  lemma RespondOK(s: State, t: State, w: nat, key: Key, at: Addr)
    requires StateOK(s) && w < |s.workers| && at in s.counters && s.counters[at].key == key
    requires t == Respond(Refer(s, at, 1), w, key, at)
    ensures StateOK(t)
  {
    var worker := s.workers[w].(down := s.workers[w].down + [Response(key, at)]);
    assert WorkerOK(s.table, s.workers[w]);
    ToldOK(s.table, s.workers[w], key, at);
    ChangedTableOK(s.table, s.counters, at, t.counters[at]);
    assert multiset(worker.down) == multiset(s.workers[w].down) + multiset{Response(key, at)};
    CountsWith(s.counters, t.counters, s.workers, w, worker);
  }

  lemma ChangedTableOK(table: map<Key, Addr>, counters: map<Addr, Counter>, at: Addr, c: Counter)
    requires TableOK(table, counters) && at in counters && c.key == counters[at].key
    ensures TableOK(table, counters[at := c])
  {
  }

  /** A counter for a key that had none: nothing refers to it yet. */
  lemma FreshOK(s: State, key: Key, spare: Addr)
    requires StateOK(s) && key !in s.table && spare !in s.counters
    ensures StateOK(s.(table := s.table[key := spare], counters := s.counters[spare := Counter(key, 0, 0)]))
  {
    var t := s.(table := s.table[key := spare], counters := s.counters[spare := Counter(key, 0, 0)]);
    forall i | 0 <= i < |s.workers| ensures WorkerOK(t.table, s.workers[i]) && RefsOf(s.workers[i], key, spare) == 0 {
      Unreferred(s.table, s.workers[i], key, spare);
    }
    AllUnreferred(s.workers, key, spare);
    FreshTableOK(s.table, s.counters, spare, Counter(key, 0, 0));
  }

  lemma FreshTableOK(table: map<Key, Addr>, counters: map<Addr, Counter>, spare: Addr, c: Counter)
    requires TableOK(table, counters) && c.key !in table && spare !in counters
    ensures TableOK(table[c.key := spare], counters[spare := c])
  {
  }

  lemma Unreferred(table: map<Key, Addr>, w: Worker, key: Key, at: Addr)
    requires WorkerOK(table, w) && key !in table
    ensures WorkerOK(table[key := at], w) && RefsOf(w, key, at) == 0
  {
    assert Response(key, at) !in w.down && ReleaseResponse(key, at) !in w.up;
  }

  lemma {:induction false} AllUnreferred(ws: seq<Worker>, key: Key, at: Addr)
    requires forall i :: 0 <= i < |ws| ==> RefsOf(ws[i], key, at) == 0
    ensures Refs(ws, key, at) == 0
  {
    if ws != [] {
      AllUnreferred(ws[1..], key, at);
    }
  }

  lemma FirstRequest(s: State, w: nat, key: Key, spare: Addr)
    requires w < |s.workers| && spare !in s.counters && key !in s.table
    ensures var u := s.(table := s.table[key := spare], counters := s.counters[spare := Counter(key, 0, 0)]);
      OnRequest(s, w, key, spare) == Respond(Refer(u, spare, 1), w, key, spare)
  {
    assert s.counters[spare := Counter(key, 0, 0)][spare := Counter(key, 1, 0)] ==
      s.counters[spare := Counter(key, 1, 0)];
  }

  lemma OnRequestOK(s: State, w: nat, key: Key, spare: Addr)
    requires StateOK(s) && w < |s.workers| && spare !in s.counters
    ensures StateOK(OnRequest(s, w, key, spare))
  {
    if key in s.table {
      RespondOK(s, OnRequest(s, w, key, spare), w, key, s.table[key]);
    } else {
      FreshOK(s, key, spare);
      FirstRequest(s, w, key, spare);
      var u := s.(table := s.table[key := spare], counters := s.counters[spare := Counter(key, 0, 0)]);
      RespondOK(u, OnRequest(s, w, key, spare), w, key, spare);
    }
  }

  /** A counter that comes back in a release is the manager's own for that key. */
  lemma ComesBack(s: State, w: nat)
    requires StateOK(s) && w < |s.workers| && s.workers[w].up != [] && s.workers[w].up[0].ReleaseResponse?
    ensures var m := s.workers[w].up[0]; m.at in s.counters && s.counters[m.at].key == m.key
  {
    assert WorkerOK(s.table, s.workers[w]);
    assert s.workers[w].up[0] in s.workers[w].up;
  }

  /** A release has come back: one reference less, in the channel and in the count. */
  lemma ReleasedOK(s: State, t: State, w: nat, worker: Worker, at: Addr)
    requires StateOK(s) && w < |s.workers| && s.workers[w].up != [] &&
      worker == s.workers[w].(up := s.workers[w].up[1..])
    requires at in s.counters && s.workers[w].up[0] == ReleaseResponse(s.counters[at].key, at)
    requires t == Refer(WithWorker(s, w, worker), at, -1)
    ensures StateOK(t)
  {
    var c := s.counters[at].(refcount := s.counters[at].refcount - 1);
    ReleasedParts(s.table, s.counters, s.workers, w, worker, at, c);
  }

  lemma ReleasedParts(table: map<Key, Addr>, counters: map<Addr, Counter>, ws: seq<Worker>, w: nat,
      worker: Worker, at: Addr, c: Counter)
    requires TableOK(table, counters) && WorkersOK(table, ws) && CountsOK(counters, ws) && at in counters && w < |ws|
    requires ws[w].up != [] && ws[w].up[0] == ReleaseResponse(counters[at].key, at) &&
      worker == ws[w].(up := ws[w].up[1..])
    requires c == counters[at].(refcount := counters[at].refcount - 1)
    ensures TableOK(table, counters[at := c]) && WorkersOK(table, ws[w := worker]) &&
      CountsOK(counters[at := c], ws[w := worker])
  {
    SentOffOK(table, ws[w], worker);
    WorkersWith(table, ws, w, worker);
    ChangedTableOK(table, counters, at, c);
    ReleasedRefs(counters, counters[at := c], ws[w], worker, at);
    CountsWith(counters, counters[at := c], ws, w, worker);
  }

  lemma WorkersWith(table: map<Key, Addr>, ws: seq<Worker>, i: nat, w: Worker)
    requires WorkersOK(table, ws) && i < |ws| && WorkerOK(table, w)
    ensures WorkersOK(table, ws[i := w])
  {
  }

  lemma ReleasedRefs(c: map<Addr, Counter>, d: map<Addr, Counter>, from: Worker, worker: Worker, at: Addr)
    requires at in c && d == c[at := c[at].(refcount := c[at].refcount - 1)]
    requires from.up != [] && from.up[0] == ReleaseResponse(c[at].key, at) && worker == from.(up := from.up[1..])
    ensures forall a :: a in d ==>
      RefsOf(worker, c[a].key, a) - RefsOf(from, c[a].key, a) <= d[a].refcount - c[a].refcount
  {
    forall a | a in d
      ensures RefsOf(worker, c[a].key, a) - RefsOf(from, c[a].key, a) <= d[a].refcount - c[a].refcount
    {
      SentOffRefs(from, worker, c[a].key, a);
    }
  }

  lemma SentOffRefs(from: Worker, worker: Worker, key: Key, at: Addr)
    requires from.up != [] && worker == from.(up := from.up[1..])
    ensures RefsOf(worker, key, at) == RefsOf(from, key, at) - (if from.up[0] == ReleaseResponse(key, at) then 1 else 0)
  {
    assert from.up == [from.up[0]] + worker.up;
    assert multiset(from.up) == multiset{from.up[0]} + multiset(worker.up);
  }

  lemma SentOffOK(table: map<Key, Addr>, from: Worker, worker: Worker)
    requires WorkerOK(table, from) && from.up != [] && worker == from.(up := from.up[1..])
    ensures WorkerOK(table, worker)
  {
    forall j | 0 <= j < |worker.down| && worker.down[j].ReleaseRequest? ensures Meets(worker, j) {
      assert Meets(from, j);
    }
  }

  lemma ManagerTakesOK(s: State, w: nat, spare: Addr, due: bool)
    requires StateOK(s) && w < |s.workers| && spare !in s.counters
    ensures StateOK(DoManagerTakes(s, w, spare, due))
  {
    var from := s.workers[w];
    assert WorkerOK(s.table, from);
    if from.up != [] {
      var worker := from.(up := from.up[1..]);
      if from.up[0].Request? {
        assert from.up == [from.up[0]] + worker.up;
        SentOffOK(s.table, from, worker);
        OneWorkerOK(s, w, worker);
        OnRequestOK(WithWorker(s, w, worker), w, from.up[0].key, spare);
      } else {
        ComesBack(s, w);
        var at := from.up[0].at;
        var t := Refer(WithWorker(s, w, worker), at, -1);
        ReleasedOK(s, t, w, worker, at);
        ExamineOK(t, at, due);
      }
    }
  }

  lemma StartOK(n: nat)
    ensures StateOK(Start(n))
  {
  }

  lemma StepOK(s: State, step: Step)
    requires StateOK(s)
    ensures StateOK(Do(s, step))
  {
    match step
    case Check(w, key, increment) => if w < |s.workers| { CheckOK(s, w, key, increment); }
    case WorkerTakes(w, active, increment) => if w < |s.workers| { WorkerTakesOK(s, w, active, increment); }
    case ManagerTakes(w, spare, due) => if w < |s.workers| && spare !in s.counters { ManagerTakesOK(s, w, spare, due); }
    case Tick(at, due) => if at in s.counters { ExamineOK(s, at, due); }
  }

  lemma {:induction false} RunOK(n: nat, steps: seq<Step>)
    ensures StateOK(Run(n, steps))
  {
    if steps == [] {
      StartOK(n);
    } else {
      var before := steps[..|steps| - 1];
      RunOK(n, before);
      StepOK(Run(n, before), steps[|steps| - 1]);
    }
  }

  /** In every run: no assertion fails and no freed counter is used; a counter in a worker's
      table, in a response or in a release is the manager's own for its key; and its
      reference count is at least the number of these. */
  lemma LeasesSafe(n: nat, steps: seq<Step>)
    ensures var s := Run(n, steps);
      && !s.fault
      && (forall a :: a in s.counters ==> Refs(s.workers, s.counters[a].key, a) <= s.counters[a].refcount)
    ensures var s := Run(n, steps);
      forall i, k :: 0 <= i < |s.workers| && k in s.workers[i].table ==>
        Current(s.table, k, s.workers[i].table[k]) && s.workers[i].table[k] in s.counters
    ensures var s := Run(n, steps);
      forall i, m :: 0 <= i < |s.workers| && m in s.workers[i].down && m.Response? ==>
        Current(s.table, m.key, m.at) && m.at in s.counters
    ensures var s := Run(n, steps);
      forall i, m :: 0 <= i < |s.workers| && m in s.workers[i].up && m.ReleaseResponse? ==>
        Current(s.table, m.key, m.at) && m.at in s.counters
  {
    RunOK(n, steps);
    var s := Run(n, steps);
    forall i | 0 <= i < |s.workers| ensures WorkerOK(s.table, s.workers[i]) {
    }
  }

  /** What would go wrong in a step: a counter used after it was freed, or a table that has
      another counter under the key than the one to be dropped or freed. */
  ghost predicate Wrong(s: State, step: Step) {
    match step
    case Check(w, key, _) =>
      w < |s.workers| && key in s.workers[w].table && s.workers[w].table[key] !in s.counters
    case WorkerTakes(w, active, _) => w < |s.workers| && WrongDown(s, s.workers[w], active)
    case ManagerTakes(w, spare, due) => w < |s.workers| && spare !in s.counters && WrongUp(s, s.workers[w].up, due)
    case Tick(at, due) => at in s.counters && due && s.counters[at].refcount == 0 && WrongEntry(s, at)
  }

  ghost predicate WrongEntry(s: State, at: Addr)
    requires at in s.counters
  {
    s.counters[at].key in s.table && s.table[s.counters[at].key] != at
  }

  ghost predicate WrongDown(s: State, me: Worker, active: bool) {
    && me.down != []
    && match me.down[0]
       case Response(_, at) => active && at !in s.counters
       case ReleaseRequest(key, at) => key in me.table && me.table[key] != at
  }

  ghost predicate WrongUp(s: State, up: seq<Up>, due: bool) {
    && up != []
    && match up[0]
       case Request(key) => key in s.table && s.table[key] !in s.counters
       case ReleaseResponse(_, at) => at in s.counters ==> s.counters[at].refcount == 1 && due && WrongEntry(s, at)
  }

  /** A fault is just that, and stays. */
  lemma FaultIff(s: State, step: Step)
    ensures Do(s, step).fault <==> s.fault || Wrong(s, step)
  {
  }

  /** And so, in every run, no next step does any of it. */
  lemma NeverWrong(n: nat, steps: seq<Step>, step: Step)
    ensures !Wrong(Run(n, steps), step)
  {
    var more := steps + [step];
    assert more[..|more| - 1] == steps;
    LeasesSafe(n, more);
    FaultIff(Run(n, steps), step);
  }

  // ---------- what a counter's numbers are ----------

  /** What a step adds to the count of a counter: the increment of a limit condition that
      has the counter at hand, or goes on with it when its response comes. */
  function Added(s: State, step: Step, at: Addr): int {
    match step
    case Check(w, key, increment) =>
      if w < |s.workers| && Current(s.workers[w].table, key, at) && increment > 0 then increment else 0
    case WorkerTakes(w, active, increment) =>
      if w < |s.workers| && s.workers[w].down != [] && s.workers[w].down[0].Response? && s.workers[w].down[0].at == at
        && active && increment > 0 then increment else 0
    case _ => 0
  }

  /** What it adds to the references: one for a request that is answered with the counter,
      one less for a release. */
  function Referred(s: State, step: Step, at: Addr): int {
    if step.ManagerTakes? && step.w < |s.workers| && s.workers[step.w].up != [] && step.spare !in s.counters then
      match s.workers[step.w].up[0]
      case Request(key) => if Current(s.table, key, at) then 1 else 0
      case ReleaseResponse(_, a) => if a == at then -1 else 0
    else 0
  }

  /** A counter that stays has its count and references changed by just that; one that
      appears answers a request and counts from nothing; one that goes was due, and had no
      reference left. */
  ghost predicate Accounted(s: State, step: Step, t: State, at: Addr) {
    if at in s.counters then
      if at in t.counters then
        && t.counters[at].count == s.counters[at].count + Added(s, step, at)
        && t.counters[at].refcount == s.counters[at].refcount + Referred(s, step, at)
      else
        && ((step.Tick? && step.at == at) || step.ManagerTakes?) && step.due
        && s.counters[at].refcount + Referred(s, step, at) == 0
    else
      at in t.counters ==> step.ManagerTakes? && t.counters[at].count == 0 && t.counters[at].refcount == 1
  }

  lemma StepAccounts(s: State, step: Step, at: Addr)
    requires StateOK(s)
    ensures Accounted(s, step, Do(s, step), at)
  {
    match step
    case Check(w, key, increment) =>
      if w < |s.workers| && key in s.workers[w].table {
        assert WorkerOK(s.table, s.workers[w]);
        CountAccounts(s, s.workers[w].table[key], increment, at);
      }
    case WorkerTakes(w, active, increment) =>
      if w < |s.workers| && s.workers[w].down != [] { WorkerAccounts(s, w, active, increment, at); }
    case ManagerTakes(w, spare, due) =>
      if w < |s.workers| && spare !in s.counters && s.workers[w].up != [] { ManagerAccounts(s, w, spare, due, at); }
    case Tick(_, _) =>
  }

  lemma CountAccounts(s: State, a: Addr, increment: int, at: Addr)
    requires a in s.counters
    ensures var t := Count(s, a, increment);
      && t.counters.Keys == s.counters.Keys
      && (at in s.counters ==>
            t.counters[at] == s.counters[at].(count := s.counters[at].count +
              if a == at && increment > 0 then increment else 0))
  {
  }

  lemma WorkerAccounts(s: State, w: nat, active: bool, increment: int, at: Addr)
    requires StateOK(s) && w < |s.workers| && s.workers[w].down != []
    ensures Accounted(s, WorkerTakes(w, active, increment), DoWorkerTakes(s, w, active, increment), at)
  {
    var me, m := s.workers[w], s.workers[w].down[0];
    assert WorkerOK(s.table, me) && m in me.down;
    if m.Response? && active {
      var t := WithWorker(s, w, me.(down := me.down[1..]));
      var u := WithWorker(t, w, t.workers[w].(table := t.workers[w].table[m.key := m.at]));
      var table := t.workers[w].table[m.key := m.at][s.counters[m.at].key := m.at];
      var v := WithWorker(u, w, t.workers[w].(table := table));
      CountAccounts(v, m.at, increment, at);
    }
  }

  lemma ManagerAccounts(s: State, w: nat, spare: Addr, due: bool, at: Addr)
    requires StateOK(s) && w < |s.workers| && spare !in s.counters && s.workers[w].up != []
    ensures Accounted(s, ManagerTakes(w, spare, due), DoManagerTakes(s, w, spare, due), at)
  {
    var from, m := s.workers[w], s.workers[w].up[0];
    var t := WithWorker(s, w, from.(up := from.up[1..]));
    assert WorkerOK(s.table, from) && m in from.up;
    if m.Request? {
      RequestAccounts(t, w, m.key, spare, at);
    } else {
      ReleaseAccounts(t, m.at, due, at);
    }
  }

  lemma RequestAccounts(t: State, w: nat, key: Key, spare: Addr, at: Addr)
    requires TableOK(t.table, t.counters) && w < |t.workers| && spare !in t.counters
    ensures var u := OnRequest(t, w, key, spare);
      if at in t.counters then
        at in u.counters && u.counters[at] ==
          t.counters[at].(refcount := t.counters[at].refcount + if Current(t.table, key, at) then 1 else 0)
      else at in u.counters ==> u.counters[at].count == 0 && u.counters[at].refcount == 1
  {
  }

  lemma ReleaseAccounts(t: State, a: Addr, due: bool, at: Addr)
    requires TableOK(t.table, t.counters) && a in t.counters
    ensures var u, n := OnReleaseResponse(t, a, due), if at == a then -1 else 0;
      && (at in u.counters ==>
            at in t.counters && u.counters[at] == t.counters[at].(refcount := t.counters[at].refcount + n))
      && (at in t.counters && at !in u.counters ==> at == a && due && t.counters[a].refcount == 1)
  {
  }

  /** The sums since the counter was made. */
  function CountSum(n: nat, steps: seq<Step>, at: Addr): int {
    if steps == [] then 0
    else
      var before, step := steps[..|steps| - 1], steps[|steps| - 1];
      if at in Run(n, before).counters then CountSum(n, before, at) + Added(Run(n, before), step, at) else 0
  }

  function ReferSum(n: nat, steps: seq<Step>, at: Addr): int {
    if steps == [] then 0
    else
      var before, step := steps[..|steps| - 1], steps[|steps| - 1];
      if at in Run(n, before).counters then ReferSum(n, before, at) + Referred(Run(n, before), step, at) else 1
  }

  /** In every run, a counter's count is the sum of the increments applied to it, and its
      reference count that of the requests answered with it less the releases. */
  lemma {:induction false} CountsAreSums(n: nat, steps: seq<Step>, at: Addr)
    requires at in Run(n, steps).counters
    ensures Run(n, steps).counters[at].count == CountSum(n, steps, at)
    ensures Run(n, steps).counters[at].refcount == ReferSum(n, steps, at)
  {
    if steps != [] {
      var before := steps[..|steps| - 1];
      RunOK(n, before);
      StepAccounts(Run(n, before), steps[|steps| - 1], at);
      if at in Run(n, before).counters {
        CountsAreSums(n, before, at);
      }
    }
  }

  /** A request is answered with the counter of its key; a counter that is due is freed if it
      has no reference, and else asked back of every worker. */
  lemma AnsweredAndAsked(s: State, w: nat, key: Key, spare: Addr, at: Addr)
    requires StateOK(s) && w < |s.workers| && s.workers[w].up != [] && s.workers[w].up[0] == Request(key)
    requires spare !in s.counters && at in s.counters
    ensures var t := Do(s, ManagerTakes(w, spare, false));
      && key in t.table && t.table[key] in t.counters && |t.workers| == |s.workers|
      && t.workers[w].down == s.workers[w].down + [Response(key, t.table[key])]
    ensures var t := Do(s, Tick(at, true));
      && (at in t.counters <==> s.counters[at].refcount != 0) && |t.workers| == |s.workers|
      && (at in t.counters ==> forall i :: 0 <= i < |s.workers| ==>
            t.workers[i].down == s.workers[i].down + [ReleaseRequest(s.counters[at].key, at)])
  {
  }

  /** A worker that needs a counter it does not hold asks for it. */
  lemma Asks(s: State, w: nat, key: Key, increment: int)
    requires StateOK(s) && w < |s.workers|
    ensures var me, t := s.workers[w], Do(s, Check(w, key, increment));
      && |t.workers| == |s.workers|
      && t.workers[w] == if key in me.table then me else me.(up := me.up + [Request(key)])
  {
  }

  /** One that is sent a counter holds it from then on; one that is asked for it gives it
      back, if it holds it. */
  lemma TakesAndReturns(s: State, w: nat, active: bool, increment: int)
    requires StateOK(s) && w < |s.workers| && s.workers[w].down != []
    ensures var me, t := s.workers[w], Do(s, WorkerTakes(w, active, increment));
      |t.workers| == |s.workers| && t.workers[w] == Handled(me.(down := me.down[1..]), me.down[0])
  {
    var me, m := s.workers[w], s.workers[w].down[0];
    assert WorkerOK(s.table, me) && m in me.down;
    var left := me.(down := me.down[1..]);
    var t := WithWorker(s, w, left);
    if m.Response? {
      assert s.counters[m.at].key == m.key;
      EntersTable(t, w, m.key, m.at, active, increment);
    } else if m.key in me.table {
      assert Meets(me, 0);
    }
  }

  lemma EntersTable(s: State, w: nat, key: Key, at: Addr, active: bool, increment: int)
    requires w < |s.workers| && at in s.counters && s.counters[at].key == key
    ensures var me, t := s.workers[w], OnResponse(s, w, key, at, active, increment);
      |t.workers| == |s.workers| && t.workers[w] == me.(table := me.table[key := at])
  {
    var me := s.workers[w];
    assert me.table[key := at][key := at] == me.table[key := at];
  }

  /** What a message makes of a worker. */
  function Handled(me: Worker, m: Down): Worker {
    match m
    case Response(key, at) => me.(table := me.table[key := at])
    case ReleaseRequest(key, at) =>
      if key in me.table then me.(table := me.table - {key}, up := me.up + [ReleaseResponse(key, at)]) else me
  }

  /** When the reaper frees a counter, no worker holds it, none is about to receive it, and
      none is giving it back. */
  lemma ReapIsSafe(n: nat, steps: seq<Step>, at: Addr, due: bool, i: nat)
    requires var s := Run(n, steps); at in s.counters && i < |s.workers| && at !in Examine(s, at, due).counters
    ensures var w := Run(n, steps).workers[i];
      && (forall k :: k in w.table ==> w.table[k] != at)
      && (forall m :: m in w.down && m.Response? ==> m.at != at)
      && (forall m :: m in w.up && m.ReleaseResponse? ==> m.at != at)
  {
    RunOK(n, steps);
    UnreferredUnheld(Run(n, steps), at, i);
  }

  function LeakStep(key: Key, i: nat): Step {
    if i < 2 then Check(0, key, 1)
    else if i < 4 then ManagerTakes(0, 7 + i, false)
    else if i < 6 then WorkerTakes(0, true, 1)
    else if i == 6 then Tick(9, true)
    else if i == 7 then WorkerTakes(0, true, 1)
    else ManagerTakes(0, 8, true)
  }

  function LeakState(key: Key, i: nat): State {
    var req, res, held := Request(key), Response(key, 9), map[key := 9];
    if i == 0 then State(map[], map[], [Worker(map[], [], [])], false)
    else if i == 1 then State(map[], map[], [Worker(map[], [], [req])], false)
    else if i == 2 then State(map[], map[], [Worker(map[], [], [req, req])], false)
    else if i == 3 then State(held, map[9 := Counter(key, 1, 0)], [Worker(map[], [res], [req])], false)
    else if i == 4 then State(held, map[9 := Counter(key, 2, 0)], [Worker(map[], [res, res], [])], false)
    else if i == 5 then State(held, map[9 := Counter(key, 2, 1)], [Worker(held, [res], [])], false)
    else if i == 6 then State(held, map[9 := Counter(key, 2, 2)], [Worker(held, [], [])], false)
    else if i == 7 then State(held, map[9 := Counter(key, 2, 2)], [Worker(held, [ReleaseRequest(key, 9)], [])], false)
    else if i == 8 then State(held, map[9 := Counter(key, 2, 2)], [Worker(map[], [], [ReleaseResponse(key, 9)])], false)
    else State(held, map[9 := Counter(key, 1, 2)], [Worker(map[], [], [])], false)
  }

  lemma Matches(s: State, t: State)
    requires s.table == t.table && s.counters == t.counters && s.fault == t.fault && |s.workers| == |t.workers| == 1
    requires var w, v := s.workers[0], t.workers[0]; w.table == v.table && w.down == v.down && w.up == v.up
    ensures s == t
  {
    assert s.workers == [s.workers[0]];
  }

  lemma LeakAsked(key: Key, i: nat)
    requires i < 4
    ensures Do(LeakState(key, i), LeakStep(key, i)) == LeakState(key, i + 1)
  {
    Matches(Do(LeakState(key, i), LeakStep(key, i)), LeakState(key, i + 1));
  }

  lemma LeakTaken(key: Key, i: nat)
    requires i == 4
    ensures Do(LeakState(key, i), LeakStep(key, i)) == LeakState(key, i + 1)
  {
    Matches(Do(LeakState(key, i), LeakStep(key, i)), LeakState(key, i + 1));
  }

  lemma LeakTakenAgain(key: Key, i: nat)
    requires i == 5
    ensures Do(LeakState(key, i), LeakStep(key, i)) == LeakState(key, i + 1)
  {
    Matches(Do(LeakState(key, i), LeakStep(key, i)), LeakState(key, i + 1));
  }

  lemma LeakAskedBack(key: Key, i: nat)
    requires 6 <= i < 8
    ensures Do(LeakState(key, i), LeakStep(key, i)) == LeakState(key, i + 1)
  {
    Matches(Do(LeakState(key, i), LeakStep(key, i)), LeakState(key, i + 1));
  }

  lemma LeakGivenBack(key: Key, i: nat)
    requires i == 8
    ensures Do(LeakState(key, i), LeakStep(key, i)) == LeakState(key, i + 1)
  {
    Matches(Do(LeakState(key, i), LeakStep(key, i)), LeakState(key, i + 1));
  }

  lemma {:induction false} LeakRun(key: Key, i: nat)
    requires i <= 9
    ensures Run(1, seq(i, j requires 0 <= j < i => LeakStep(key, j))) == LeakState(key, i)
  {
    if i > 0 {
      var steps := seq(i, j requires 0 <= j < i => LeakStep(key, j));
      assert steps[..i - 1] == seq(i - 1, j requires 0 <= j < i - 1 => LeakStep(key, j));
      LeakRun(key, i - 1);
      match i
      case 5 => LeakTaken(key, i - 1);
      case 6 => LeakTakenAgain(key, i - 1);
      case 9 => LeakGivenBack(key, i - 1);
      case _ => if i < 5 { LeakAsked(key, i - 1); } else { LeakAskedBack(key, i - 1); }
    } else {
      assert Start(1).workers == [Worker(map[], [], [])];
    }
  }

  /** The count is no more than a bound: two requests of one worker that wait for the same
      counter take two references, and the worker gives back one. */
  lemma ReferenceLeaks(key: Key)
    ensures exists steps :: var s := Run(1, steps);
      s.counters == map[9 := Counter(key, 1, 2)] && s.workers == [Worker(map[], [], [])]
  {
    LeakRun(key, 9);
    var steps := seq(9, j requires 0 <= j < 9 => LeakStep(key, j));
    assert Run(1, steps) == LeakState(key, 9);
  }
}
