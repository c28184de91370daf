/** Many senders and one receiver on a pipe: what the receiver's handler is given over
    whole runs, whenever senders write and whenever a write fails for want of room. */
module IpcRuns {
  import opened Basics
  import opened IpcPackets

  datatype System = System(
    sent: seq<seq<Alert>>,       // by each sender, the alerts it was asked to send
    queue: seq<seq<Packet>>,     // by each sender, the packets not yet in the pipe
    pipe: seq<Packet>,
    bufs: seq<ReadBuf>,
    delivered: seq<Received>,    // the calls of the receiver's handler
    broken: bool)                // a complaint, or a write outside a buffer

  datatype Step = Send(i: nat, a: Alert) | Write(i: nat) | Receive

  function Start(n: nat): System {
    System(seq(n, _ => []), seq(n, _ => []), [], [], [], false)
  }

  predicate Shaped(senders: seq<Sender>, y: System) { |y.sent| == |senders| && |y.queue| == |senders| }

  function Do(senders: seq<Sender>, y: System, step: Step): (z: System)
    requires Shaped(senders, y)
    ensures Shaped(senders, z)
  {
    match step
    case Send(i, a) =>
      if i < |senders| && Sendable(a)
      then y.(sent := y.sent[i := y.sent[i] + [a]], queue := y.queue[i := y.queue[i] + Packets(senders[i], a)])
      else y
    case Write(i) =>
      if i < |senders| && y.queue[i] != []
      then y.(queue := y.queue[i := y.queue[i][1..]], pipe := y.pipe + [y.queue[i][0]])
      else y
    case Receive =>
      if y.pipe == [] then y
      else
        match ReadPacket(y.bufs, y.pipe[0])
        case Read(bufs, alert) => y.(pipe := y.pipe[1..], bufs := bufs, delivered := y.delivered + alert)
        case _ => y.(broken := true)
  }

  function Run(senders: seq<Sender>, steps: seq<Step>): (y: System)
    ensures Shaped(senders, y)
  {
    if steps == [] then Start(|senders|)
    else Do(senders, Run(senders, steps[..|steps| - 1]), steps[|steps| - 1])
  }

  // ---------- what concerns one sender ----------

  function From(pipe: seq<Packet>, slot: nat): (ps: seq<Packet>) {
    if pipe == [] then []
    else (if pipe[0].header.slot == slot then [pipe[0]] else []) + From(pipe[1..], slot)
  }

  lemma {:induction false} FromAdd(pipe: seq<Packet>, p: Packet, slot: nat)
    ensures From(pipe + [p], slot) == From(pipe, slot) + (if p.header.slot == slot then [p] else [])
  {
    var whole := pipe + [p];
    if pipe == [] {
      assert whole[1..] == [] && From(whole[1..], slot) == [];
    } else {
      var rest := pipe[1..];
      assert whole[0] == pipe[0] && whole[1..] == rest + [p];
      FromAdd(rest, p, slot);
      Regroup(if pipe[0].header.slot == slot then [pipe[0]] else [], From(rest, slot),
        if p.header.slot == slot then [p] else []);
    }
  }

  /** The alerts of one sender among those delivered. */
  function By(delivered: seq<Received>, s: Sender): (alerts: seq<Alert>) {
    if delivered == [] then []
    else
      var r := delivered[|delivered| - 1];
      By(delivered[..|delivered| - 1], s) + (if r.slot == s.slot && r.pid == s.pid then [r.alert] else [])
  }

  lemma ByAdd(delivered: seq<Received>, r: Received, s: Sender)
    ensures By(delivered + [r], s) == By(delivered, s) + (if r.slot == s.slot && r.pid == s.pid then [r.alert] else [])
  {
    assert (delivered + [r])[..|delivered|] == delivered;
  }

  function BufOf(bufs: seq<ReadBuf>, slot: nat): Option<ReadBuf> {
    var i := FindBuf(bufs, slot);
    if i < |bufs| then Some(bufs[i]) else None
  }

  predicate OneEach(bufs: seq<ReadBuf>) {
    forall i, j :: 0 <= i < j < |bufs| ==> bufs[i].header.slot != bufs[j].header.slot
  }

  lemma BufOfAdd(bufs: seq<ReadBuf>, b: ReadBuf, slot: nat)
    ensures BufOf([b] + bufs, slot) == if b.header.slot == slot then Some(b) else BufOf(bufs, slot)
  {
    assert ([b] + bufs)[1..] == bufs;
  }

  lemma BufOfAt(bufs: seq<ReadBuf>, i: nat, slot: nat)
    requires OneEach(bufs) && i < |bufs| && bufs[i].header.slot == slot
    ensures FindBuf(bufs, slot) == i
  {
  }

  lemma BufOfSet(bufs: seq<ReadBuf>, i: nat, b: ReadBuf, slot: nat)
    requires OneEach(bufs) && i < |bufs| && b.header.slot == bufs[i].header.slot
    ensures OneEach(bufs[i := b])
    ensures BufOf(bufs[i := b], slot) == if b.header.slot == slot then Some(b) else BufOf(bufs, slot)
  {
    var k := FindBuf(bufs, slot);
    if k < |bufs| {
      BufOfAt(bufs[i := b], k, slot);
    }
  }

  lemma BufOfWithout(bufs: seq<ReadBuf>, i: nat, slot: nat)
    requires OneEach(bufs) && i < |bufs|
    ensures OneEach(Without(bufs, i))
    ensures BufOf(Without(bufs, i), slot) == if bufs[i].header.slot == slot then None else BufOf(bufs, slot)
  {
    var k, r := FindBuf(bufs, slot), Without(bufs, i);
    assert forall j :: 0 <= j < |r| ==> r[j] == bufs[if j < i then j else j + 1];
    if k < |bufs| && k != i {
      BufOfAt(r, if k < i then k else k - 1, slot);
    }
  }

  // ---------- the invariant of one sender's lane ----------

  /** What of the alerts is still on its way: nothing of the next alert has been read, or
      the buffer holds what has. */
  ghost predicate OnItsWay(s: Sender, left: seq<Alert>, rest: seq<Packet>, buf: Option<ReadBuf>) {
    match buf
    case None => rest == AllPackets(s, left)
    case Some(b) =>
      && left != [] && IsPartial(b, s, left[0], b.got)
      && rest == Parts(s, left[0], b.got) + AllPackets(s, left[1..])
  }

  ghost predicate Lane(s: Sender, sent: seq<Alert>, queue: seq<Packet>, coming: seq<Packet>,
      buf: Option<ReadBuf>, done: seq<Alert>) {
    && (forall a :: a in sent ==> Sendable(a))
    && (forall p :: p in queue ==> p.header.slot == s.slot)
    && done <= sent
    && OnItsWay(s, sent[|done|..], coming + queue, buf)
  }

  lemma {:induction false} PartsFrom(s: Sender, a: Alert, off: nat)
    requires off <= |Body(a)|
    ensures forall p :: p in Parts(s, a, off) ==> p.header.slot == s.slot
    decreases |Body(a)| - off
  {
    if off < |Body(a)| {
      PartsFrom(s, a, off + Min(MAX_BODY, |Body(a)| - off));
    }
  }

  lemma MoreOnItsWay(s: Sender, left: seq<Alert>, rest: seq<Packet>, buf: Option<ReadBuf>, a: Alert)
    requires OnItsWay(s, left, rest, buf)
    ensures OnItsWay(s, left + [a], rest + Packets(s, a), buf)
  {
    if buf.None? {
      AllPacketsAdd(s, left, a);
    } else {
      assert (left + [a])[1..] == left[1..] + [a];
      AllPacketsAdd(s, left[1..], a);
      Regroup(Parts(s, left[0], buf.value.got), AllPackets(s, left[1..]), Packets(s, a));
    }
  }

  lemma Heads<T>(p: T, after: seq<T>, q: T, more: seq<T>)
    requires [p] + after == [q] + more
    ensures p == q && after == more
  {
    assert ([p] + after)[0] == p && ([q] + more)[0] == q;
    assert ([p] + after)[1..] == after && ([q] + more)[1..] == more;
  }

  /** The first packet on its way when no part of the next alert has been read. */
  lemma NextPacket(s: Sender, left: seq<Alert>, p: Packet, after: seq<Packet>)
    requires [p] + after == AllPackets(s, left)
    ensures left != []
    ensures |Body(left[0])| <= MAX_BODY ==> p == Part(s, left[0], 0, '$') && after == AllPackets(s, left[1..])
    ensures |Body(left[0])| > MAX_BODY ==>
      p == Part(s, left[0], 0, '>') && after == Parts(s, left[0], MAX_BODY) + AllPackets(s, left[1..])
  {
    var a, more := left[0], AllPackets(s, left[1..]);
    if |Body(a)| <= MAX_BODY {
      Heads(p, after, Part(s, a, 0, '$'), more);
    } else {
      Regroup([Part(s, a, 0, '>')], Parts(s, a, MAX_BODY), more);
      Heads(p, after, Part(s, a, 0, '>'), Parts(s, a, MAX_BODY) + more);
    }
  }

  lemma NextPart(s: Sender, a: Alert, off: nat, len: nat, more: seq<Packet>, p: Packet, after: seq<Packet>)
    requires 0 < off < |Body(a)| && len == Min(MAX_BODY, |Body(a)| - off)
    requires [p] + after == Parts(s, a, off) + more
    ensures p == Part(s, a, off, '+') && after == Parts(s, a, off + len) + more
  {
    Regroup([Part(s, a, off, '+')], Parts(s, a, off + len), more);
    Heads(p, after, Part(s, a, off, '+'), Parts(s, a, off + len) + more);
  }

  lemma LaneSend(s: Sender, sent: seq<Alert>, queue: seq<Packet>, coming: seq<Packet>, buf: Option<ReadBuf>,
      done: seq<Alert>, a: Alert)
    requires Lane(s, sent, queue, coming, buf, done) && Sendable(a)
    ensures Lane(s, sent + [a], queue + Packets(s, a), coming, buf, done)
  {
    PartsFrom(s, a, 0);
    var left, rest := sent[|done|..], coming + queue;
    assert (sent + [a])[|done|..] == left + [a];
    Regroup(coming, queue, Packets(s, a));
    MoreOnItsWay(s, left, rest, buf, a);
  }

  lemma LaneWrite(s: Sender, sent: seq<Alert>, queue: seq<Packet>, coming: seq<Packet>, buf: Option<ReadBuf>,
      done: seq<Alert>)
    requires Lane(s, sent, queue, coming, buf, done) && queue != []
    ensures Lane(s, sent, queue[1..], coming + [queue[0]], buf, done)
  {
    Regroup(coming, [queue[0]], queue[1..]);
    assert [queue[0]] + queue[1..] == queue;
  }

  /** What a packet's arrival leaves: the alerts still left, and the buffers. */
  ghost predicate Arrived(s: Sender, left: seq<Alert>, after: seq<Packet>, bufs: seq<ReadBuf>, r: ReadResult) {
    && r.Read? && OneEach(r.bufs) && left != []
    && (r.alert == [] || r.alert == [Received(s.slot, s.pid, left[0])])
    && OnItsWay(s, if r.alert == [] then left else left[1..], after, BufOf(r.bufs, s.slot))
    && forall t: nat :: t != s.slot ==> BufOf(r.bufs, t) == BufOf(bufs, t)
  }

  lemma FirstArrives(s: Sender, left: seq<Alert>, p: Packet, after: seq<Packet>, bufs: seq<ReadBuf>)
    requires OneEach(bufs) && BufOf(bufs, s.slot) == None && (forall a :: a in left ==> Sendable(a))
    requires [p] + after == AllPackets(s, left)
    ensures Arrived(s, left, after, bufs, ReadPacket(bufs, p))
  {
    NextPacket(s, left, p, after);
    var a, r := left[0], ReadPacket(bufs, p);
    if |Body(a)| <= MAX_BODY {
      ArriveWhole(bufs, s, a);
    } else {
      ArriveFirst(bufs, s, a);
      forall t: nat ensures BufOf(r.bufs, t) == if t == s.slot then Some(r.bufs[0]) else BufOf(bufs, t) {
        BufOfAdd(bufs, r.bufs[0], t);
      }
    }
  }

  lemma NextArrives(s: Sender, left: seq<Alert>, p: Packet, after: seq<Packet>, bufs: seq<ReadBuf>)
    requires OneEach(bufs) && BufOf(bufs, s.slot) != None && (forall a :: a in left ==> Sendable(a))
    requires OnItsWay(s, left, [p] + after, BufOf(bufs, s.slot))
    ensures Arrived(s, left, after, bufs, ReadPacket(bufs, p))
  {
    var i, a, r := FindBuf(bufs, s.slot), left[0], ReadPacket(bufs, p);
    var off := bufs[i].got;
    var len := Min(MAX_BODY, |Body(a)| - off);
    NextPart(s, a, off, len, AllPackets(s, left[1..]), p, after);
    ArriveNext(bufs, i, s, a, off);
    if off + len == |Body(a)| {
      forall t: nat ensures OneEach(r.bufs) && BufOf(r.bufs, t) == if t == s.slot then None else BufOf(bufs, t) {
        BufOfWithout(bufs, i, t);
      }
      Regroup([], [], AllPackets(s, left[1..]));
    } else {
      forall t: nat ensures OneEach(r.bufs) && BufOf(r.bufs, t) == if t == s.slot then Some(r.bufs[i])
        else BufOf(bufs, t) {
        BufOfSet(bufs, i, r.bufs[i], t);
      }
    }
  }

  /** A packet of the sender comes out of the pipe. */
  lemma LaneRead(s: Sender, sent: seq<Alert>, queue: seq<Packet>, p: Packet, coming: seq<Packet>,
      bufs: seq<ReadBuf>, done: seq<Alert>)
    requires OneEach(bufs) && Lane(s, sent, queue, [p] + coming, BufOf(bufs, s.slot), done)
    ensures var r := ReadPacket(bufs, p);
      && Arrived(s, sent[|done|..], coming + queue, bufs, r)
      && Lane(s, sent, queue, coming, BufOf(r.bufs, s.slot), if r.alert == [] then done else done + [r.alert[0].alert])
  {
    var left, after := sent[|done|..], coming + queue;
    Regroup([p], coming, queue);
    if BufOf(bufs, s.slot).None? {
      FirstArrives(s, left, p, after, bufs);
    } else {
      NextArrives(s, left, p, after, bufs);
    }
    assert left[0] == sent[|done|] && sent[|done| + 1..] == left[1..] && done + [left[0]] <= sent;
  }

  // ---------- the invariant of the system ----------

  predicate Distinct(senders: seq<Sender>) {
    forall i, j :: 0 <= i < j < |senders| ==> senders[i].slot != senders[j].slot
  }

  ghost predicate Known(senders: seq<Sender>, slot: nat, pid: int) {
    exists i :: 0 <= i < |senders| && senders[i] == Sender(slot, pid)
  }

  ghost predicate LaneOK(senders: seq<Sender>, y: System, i: nat)
    requires Shaped(senders, y) && i < |senders|
  {
    Lane(senders[i], y.sent[i], y.queue[i], From(y.pipe, senders[i].slot),
      BufOf(y.bufs, senders[i].slot), By(y.delivered, senders[i]))
  }

  ghost predicate SystemOK(senders: seq<Sender>, y: System) {
    && Shaped(senders, y) && !y.broken && OneEach(y.bufs)
    && (forall p :: p in y.pipe ==> exists i :: 0 <= i < |senders| && senders[i].slot == p.header.slot)
    && (forall r :: r in y.delivered ==> Known(senders, r.slot, r.pid))
    && (forall i :: 0 <= i < |senders| ==> LaneOK(senders, y, i))
  }

  lemma StartOK(senders: seq<Sender>)
    ensures SystemOK(senders, Start(|senders|))
  {
  }

  lemma SendOK(senders: seq<Sender>, y: System, i: nat, a: Alert)
    requires SystemOK(senders, y) && i < |senders| && Sendable(a)
    ensures SystemOK(senders, Do(senders, y, Send(i, a)))
  {
    var z := Do(senders, y, Send(i, a));
    forall j | 0 <= j < |senders| ensures LaneOK(senders, z, j) {
      assert LaneOK(senders, y, j);
      if j == i {
        LaneSend(senders[i], y.sent[i], y.queue[i], From(y.pipe, senders[i].slot),
          BufOf(y.bufs, senders[i].slot), By(y.delivered, senders[i]), a);
      }
    }
  }

  lemma WriteLane(senders: seq<Sender>, y: System, z: System, i: nat, j: nat)
    requires Shaped(senders, y) && i < |senders| && j < |senders| && y.queue[i] != [] && z == Do(senders, y, Write(i))
    requires y.queue[i][0].header.slot == senders[i].slot && (i != j ==> senders[i].slot != senders[j].slot)
    requires LaneOK(senders, y, j)
    ensures LaneOK(senders, z, j)
  {
    FromAdd(y.pipe, y.queue[i][0], senders[j].slot);
    if j == i {
      LaneWrite(senders[i], y.sent[i], y.queue[i], From(y.pipe, senders[i].slot),
        BufOf(y.bufs, senders[i].slot), By(y.delivered, senders[i]));
    } else {
      assert From(z.pipe, senders[j].slot) == From(y.pipe, senders[j].slot);
    }
  }

  lemma WriteOK(senders: seq<Sender>, y: System, i: nat)
    requires Distinct(senders) && SystemOK(senders, y) && i < |senders| && y.queue[i] != []
    ensures SystemOK(senders, Do(senders, y, Write(i)))
  {
    var z := Do(senders, y, Write(i));
    assert y.queue[i][0].header.slot == senders[i].slot by { assert LaneOK(senders, y, i); }
    forall j | 0 <= j < |senders| ensures LaneOK(senders, z, j) {
      WriteLane(senders, y, z, i, j);
    }
  }

  /** The lane of a sender when a packet of another has arrived. */
  lemma OtherLane(senders: seq<Sender>, y: System, z: System, s: Sender, j: nat, r: ReadResult)
    requires Shaped(senders, y) && Shaped(senders, z) && j < |senders| && senders[j].slot != s.slot &&
      LaneOK(senders, y, j)
    requires y.pipe != [] && y.pipe[0].header.slot == s.slot && z.pipe == y.pipe[1..] && r.Read? && z.bufs == r.bufs
    requires z.sent == y.sent && z.queue == y.queue && z.delivered == y.delivered + r.alert
    requires r.alert == [] || r.alert == [Received(s.slot, s.pid, r.alert[0].alert)]
    requires BufOf(r.bufs, senders[j].slot) == BufOf(y.bufs, senders[j].slot)
    ensures LaneOK(senders, z, j)
  {
    assert From(z.pipe, senders[j].slot) == From(y.pipe, senders[j].slot);
    if r.alert == [] {
      assert z.delivered == y.delivered;
    } else {
      ByAdd(y.delivered, r.alert[0], senders[j]);
    }
  }

  lemma ReceiveOK(senders: seq<Sender>, y: System)
    requires Distinct(senders) && SystemOK(senders, y) && y.pipe != []
    ensures SystemOK(senders, Do(senders, y, Receive))
  {
    var i :| 0 <= i < |senders| && senders[i].slot == y.pipe[0].header.slot;
    var z := ReceivedLanes(senders, y, i);
    forall p | p in z.pipe ensures exists k :: 0 <= k < |senders| && senders[k].slot == p.header.slot {
      assert p in y.pipe;
    }
  }

  /** A packet of sender i is received. */
  lemma ReceivedLanes(senders: seq<Sender>, y: System, i: nat) returns (z: System)
    requires Distinct(senders) && SystemOK(senders, y) && y.pipe != []
    requires i < |senders| && senders[i].slot == y.pipe[0].header.slot
    ensures z == Do(senders, y, Receive) && z.pipe == y.pipe[1..] && !z.broken && OneEach(z.bufs)
    ensures forall r :: r in z.delivered ==> Known(senders, r.slot, r.pid)
    ensures forall j :: 0 <= j < |senders| ==> LaneOK(senders, z, j)
  {
    var r, s := ReadPacket(y.bufs, y.pipe[0]), senders[i];
    z := Do(senders, y, Receive);
    assert LaneOK(senders, y, i);
    LaneRead(s, y.sent[i], y.queue[i], y.pipe[0], From(y.pipe[1..], s.slot), y.bufs, By(y.delivered, s));
    assert Known(senders, s.slot, s.pid);
    if r.alert == [] {
      assert z.delivered == y.delivered;
    } else {
      ByAdd(y.delivered, r.alert[0], s);
    }
    forall j | 0 <= j < |senders| ensures LaneOK(senders, z, j) {
      assert LaneOK(senders, y, j);
      if j != i {
        OtherLane(senders, y, z, s, j, r);
      }
    }
  }

  lemma {:induction false} RunOK(senders: seq<Sender>, steps: seq<Step>)
    requires Distinct(senders)
    ensures SystemOK(senders, Run(senders, steps))
  {
    if steps == [] {
      StartOK(senders);
    } else {
      var before, step := steps[..|steps| - 1], steps[|steps| - 1];
      RunOK(senders, before);
      var y := Run(senders, before);
      match step
      case Send(i, a) => if i < |senders| && Sendable(a) { SendOK(senders, y, i, a); }
      case Write(i) => if i < |senders| && y.queue[i] != [] { WriteOK(senders, y, i); }
      case Receive => if y.pipe != [] { ReceiveOK(senders, y); }
    }
  }

  /** The alerts sender i is asked to send in a run, in order. */
  function Asked(steps: seq<Step>, i: nat): (alerts: seq<Alert>) {
    if steps == [] then []
    else
      var step := steps[|steps| - 1];
      Asked(steps[..|steps| - 1], i) + (if step.Send? && step.i == i && Sendable(step.a) then [step.a] else [])
  }

  lemma {:induction false} SentIsAsked(senders: seq<Sender>, steps: seq<Step>, i: nat)
    requires i < |senders|
    ensures Run(senders, steps).sent[i] == Asked(steps, i)
  {
    if steps != [] {
      SentIsAsked(senders, steps[..|steps| - 1], i);
    }
  }

  /** In every run, with any interleaving of senders and any failing writes: no packet is
      rejected and none overruns its buffer; what the handler got from a sender is what
      that sender was asked to send, in order, once each, as far as it has come; all of it
      once nothing of the sender is queued or in the pipe; and nothing comes from nowhere. */
  lemma AlertsArrive(senders: seq<Sender>, steps: seq<Step>)
    requires Distinct(senders)
    ensures var y := Run(senders, steps);
      && !y.broken
      && (forall r :: r in y.delivered ==> Known(senders, r.slot, r.pid))
      && forall i :: 0 <= i < |senders| ==> By(y.delivered, senders[i]) <= Asked(steps, i)
    ensures var y := Run(senders, steps);
      forall i :: 0 <= i < |senders| && y.queue[i] == [] && From(y.pipe, senders[i].slot) == [] ==>
        By(y.delivered, senders[i]) == Asked(steps, i) && BufOf(y.bufs, senders[i].slot) == None
  {
    RunOK(senders, steps);
    var y := Run(senders, steps);
    forall i | 0 <= i < |senders|
      ensures By(y.delivered, senders[i]) <= Asked(steps, i)
      ensures y.queue[i] == [] && From(y.pipe, senders[i].slot) == [] ==>
        By(y.delivered, senders[i]) == Asked(steps, i) && BufOf(y.bufs, senders[i].slot) == None
    {
      SentIsAsked(senders, steps, i);
      assert LaneOK(senders, y, i);
    }
  }
}
