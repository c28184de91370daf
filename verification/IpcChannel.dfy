/** The two ends of a channel as objects: the writer's queue of packets the pipe had no
    room for, and the reader's list of alerts not yet complete. */
module IpcChannel {
  import opened Basics
  import opened IpcPackets
  import opened IpcRuns
  import opened Queues

  /** A pipe that takes whole packets or refuses them. `room` says of the coming writes
      whether there is room; later ones find room. */
  class Pipe {
    var packets: seq<Packet>
    var room: seq<bool>

    constructor (room: seq<bool>)
      ensures packets == [] && this.room == room
    {
      packets, this.room := [], room;
    }

    method WriteIovec(p: Packet) returns (ok: bool)
      modifies this
      ensures ok == (old(room) == [] || old(room)[0])
      ensures room == if old(room) == [] then [] else old(room)[1..]
      ensures packets == if ok then old(packets) + [p] else old(packets)
    {
      ok := room == [] || room[0];
      if room != [] {
        room := room[1..];
      }
      if ok {
        packets := packets + [p];
      }
    }
  }

  predicate AllRoom(room: seq<bool>) { forall k :: 0 <= k < |room| ==> room[k] }

  /** What is in the pipe, what waits to be written, and the room to come. */
  datatype Flow = Flow(pipe: seq<Packet>, queue: seq<Packet>, room: seq<bool>)

  /** Writing as long as there is room. */
  function Flowed(f: Flow): (g: Flow)
    decreases |f.queue|
  {
    if f.queue == [] then f
    else if f.room == [] then Flowed(Flow(f.pipe + [f.queue[0]], f.queue[1..], []))
    else if f.room[0] then Flowed(Flow(f.pipe + [f.queue[0]], f.queue[1..], f.room[1..]))
    else f.(room := f.room[1..])
  }

  /** How many of n packets find room one after the other, before one does not. */
  function Fitting(n: nat, room: seq<bool>): (k: nat)
    ensures k <= n
    ensures forall j :: 0 <= j < k && j < |room| ==> room[j]
    ensures k < n ==> k < |room| && !room[k]
  {
    if n == 0 || (room != [] && !room[0]) then 0
    else 1 + Fitting(n - 1, if room == [] then [] else room[1..])
  }

  /** Those are written, in order, and the others stay. */
  lemma {:induction false} FlowedIs(f: Flow)
    ensures var k := Fitting(|f.queue|, f.room);
      Flowed(f).pipe == f.pipe + f.queue[..k] && Flowed(f).queue == f.queue[k..]
    decreases |f.queue|
  {
    var q, k := f.queue, Fitting(|f.queue|, f.room);
    if q == [] || (f.room != [] && !f.room[0]) {
      assert q[k..] == q && f.pipe + q[..k] == f.pipe;
    } else {
      var g := Flow(f.pipe + [q[0]], q[1..], if f.room == [] then [] else f.room[1..]);
      FlowedIs(g);
      assert Flowed(f) == Flowed(g) && Fitting(|g.queue|, g.room) == k - 1;
      Regroup(f.pipe, [q[0]], q[1..][..k - 1]);
      assert [q[0]] + q[1..][..k - 1] == q[..k] && q[1..][k - 1..] == q[k..];
    }
  }

  lemma {:induction false} AllRoomFlows(f: Flow)
    requires AllRoom(f.room)
    ensures AllRoom(Flowed(f).room) && Flowed(f).queue == []
    decreases |f.queue|
  {
    if f.queue != [] {
      AllRoomFlows(Flow(f.pipe + [f.queue[0]], f.queue[1..], if f.room == [] then [] else f.room[1..]));
    }
  }

  /** Writing a queue, and then one packet more if all of it went through. */
  lemma {:induction false} FlowedThen(f: Flow, p: Packet)
    ensures var g := Flowed(f);
      Flowed(f.(queue := f.queue + [p])) ==
        if g.queue == [] then Flowed(g.(queue := [p])) else g.(queue := g.queue + [p])
    decreases |f.queue|
  {
    if f.queue != [] {
      assert (f.queue + [p])[1..] == f.queue[1..] + [p];
      if f.room == [] || f.room[0] {
        FlowedThen(Flow(f.pipe + [f.queue[0]], f.queue[1..], if f.room == [] then [] else f.room[1..]), p);
      }
    } else {
      assert [] + [p] == [p];
    }
  }

  /** One more packet, and a try to write. */
  function Passed(f: Flow, p: Packet): (g: Flow) { Flowed(f.(queue := f.queue + [p])) }

  function AllPassed(f: Flow, ps: seq<Packet>): (g: Flow)
    decreases |ps|
  {
    if ps == [] then f else AllPassed(Passed(f, ps[0]), ps[1..])
  }

  lemma PassedFirst(f: Flow, p: Packet, ps: seq<Packet>)
    ensures AllPassed(f, [p] + ps) == AllPassed(Passed(f, p), ps)
  {
    assert ([p] + ps)[1..] == ps;
  }

  /** Nothing is lost or changes places. */
  lemma {:induction false} AllPassedKeeps(f: Flow, ps: seq<Packet>)
    ensures var g := AllPassed(f, ps); f.pipe <= g.pipe && g.pipe + g.queue == f.pipe + (f.queue + ps)
    decreases |ps|
  {
    if ps == [] {
      assert f.queue + [] == f.queue;
    } else {
      var q := f.queue + [ps[0]];
      var k := Fitting(|q|, f.room);
      FlowedIs(f.(queue := q));
      AllPassedKeeps(Passed(f, ps[0]), ps[1..]);
      Regroup(f.queue, [ps[0]], ps[1..]);
      assert [ps[0]] + ps[1..] == ps;
      Regroup(q[..k], q[k..], ps[1..]);
      assert q[..k] + q[k..] == q;
      Regroup(f.pipe, q[..k], q[k..] + ps[1..]);
    }
  }

  /** With room for all, nothing stays, nor of what was queued before. */
  lemma {:induction false} AllRoomPasses(f: Flow, ps: seq<Packet>)
    requires AllRoom(f.room) && (ps != [] || f.queue == [])
    ensures AllPassed(f, ps).queue == [] && AllRoom(AllPassed(f, ps).room)
    decreases |ps|
  {
    if ps != [] {
      AllRoomFlows(f.(queue := f.queue + [ps[0]]));
      AllRoomPasses(Passed(f, ps[0]), ps[1..]);
    }
  }

  /** What k write steps of sender i make of the system. */
  function Writes(senders: seq<Sender>, y: System, i: nat, k: nat): (z: System)
    requires Shaped(senders, y)
    ensures Shaped(senders, z)
    decreases k
  {
    if k == 0 then y else Writes(senders, Do(senders, y, Write(i)), i, k - 1)
  }

  lemma {:induction false} WritesAre(senders: seq<Sender>, y: System, i: nat, k: nat)
    requires Shaped(senders, y) && i < |senders| && k <= |y.queue[i]|
    ensures Writes(senders, y, i, k) == y.(queue := y.queue[i := y.queue[i][k..]], pipe := y.pipe + y.queue[i][..k])
    decreases k
  {
    if k == 0 {
      assert y.queue[i := y.queue[i][0..]] == y.queue && y.pipe + y.queue[i][..0] == y.pipe;
    } else {
      var z, q := Do(senders, y, Write(i)), y.queue[i];
      WritesAre(senders, z, i, k - 1);
      assert q[1..][k - 1..] == q[k..] && y.pipe + [q[0]] + q[1..][..k - 1] == y.pipe + q[..k];
      assert z.queue[i := q[k..]] == y.queue[i := q[k..]];
    }
  }

  /** A send on the channel is the system's send step and then some of its write steps. */
  lemma SendIsSteps(senders: seq<Sender>, y: System, i: nat, a: Alert, f: Flow)
    requires Shaped(senders, y) && i < |senders| && Sendable(a) && f.pipe == y.pipe && f.queue == y.queue[i]
    ensures var g, z := AllPassed(f, Packets(senders[i], a)), Do(senders, y, Send(i, a));
      && |f.pipe| <= |g.pipe|
      && Writes(senders, z, i, |g.pipe| - |f.pipe|) == z.(queue := z.queue[i := g.queue], pipe := g.pipe)
  {
    AllPassedKeeps(f, Packets(senders[i], a));
    StepsByLength(senders, Do(senders, y, Send(i, a)), i, AllPassed(f, Packets(senders[i], a)));
  }

  /** And the write event is as many write steps as there is room for. */
  lemma HandlerIsSteps(senders: seq<Sender>, y: System, i: nat, f: Flow)
    requires Shaped(senders, y) && i < |senders| && f.pipe == y.pipe && f.queue == y.queue[i]
    ensures var g := Flowed(f);
      Writes(senders, y, i, Fitting(|f.queue|, f.room)) == y.(queue := y.queue[i := g.queue], pipe := g.pipe)
  {
    FlowedIs(f);
    WritesAre(senders, y, i, Fitting(|f.queue|, f.room));
  }

  lemma StepsByLength(senders: seq<Sender>, z: System, i: nat, g: Flow)
    requires Shaped(senders, z) && i < |senders| && z.pipe <= g.pipe && g.pipe + g.queue == z.pipe + z.queue[i]
    ensures Writes(senders, z, i, |g.pipe| - |z.pipe|) == z.(queue := z.queue[i := g.queue], pipe := g.pipe)
  {
    var k, q := |g.pipe| - |z.pipe|, z.queue[i];
    assert |g.pipe + g.queue| == |z.pipe + q|;
    assert g.pipe == (g.pipe + g.queue)[..|g.pipe|] && (z.pipe + q)[..|g.pipe|] == z.pipe + q[..k];
    assert g.queue == (g.pipe + g.queue)[|g.pipe|..] && (z.pipe + q)[|g.pipe|..] == q[k..];
    WritesAre(senders, z, i, k);
  }

  class WriteChannel {
    const sender: Sender
    const pipe: Pipe
    const queue: Queue<Packet>
    var last: Option<Packet>

    ghost predicate Valid()
      reads this, queue, queue.nodes
    {
      queue.Valid()
    }

    /** What is to be written: what is queued, and then what is at hand. */
    ghost function Waiting(): Flow
      reads this, pipe, queue
    {
      Flow(pipe.packets, queue.Contents() + (if last.None? then [] else [last.value]), pipe.room)
    }

    constructor (sender: Sender, pipe: Pipe)
      ensures Valid() && last.None? && this.pipe == pipe && this.sender == sender
      ensures Waiting() == Flow(pipe.packets, [], pipe.room)
      ensures fresh(queue)
    {
      this.sender, this.pipe, last := sender, pipe, None;
      queue := new Queue();
    }

    method EnqueueTmp()
      requires Valid()
      modifies this`last, queue, queue.nodes
      ensures Valid() && last.None? && Waiting() == old(Waiting())
      ensures fresh(queue.nodes - old(queue.nodes))
    {
      if last.None? {
        return;
      }
      queue.Push(last.value);
      last := None;
    }

    method EnqueueWrite(p: Packet)
      requires Valid()
      modifies this`last, queue, queue.nodes
      ensures Valid() && last == Some(p) && Waiting() == old(Waiting()).(queue := old(Waiting()).queue + [p])
      ensures fresh(queue.nodes - old(queue.nodes))
    {
      EnqueueTmp();
      last := Some(p);
    }

    /** Writes in order as long as there is room; the rest is queued. */
    method WriteHandler()
      requires Valid()
      modifies this`last, pipe, queue, queue.nodes
      ensures Valid() && last.None? && Waiting() == Flowed(old(Waiting()))
      ensures fresh(queue.nodes - old(queue.nodes))
    {
      ghost var f := Flow(pipe.packets, queue.Contents(), pipe.room);
      assert f.queue + [] == f.queue;
      if last.Some? {
        FlowedThen(f, last.value);
      }
      var ok := WriteQueue();
      if last.Some? {
        WriteLast(ok);
      }
    }

    method WriteLast(room: bool)
      requires Valid() && last.Some? && (room ==> queue.Contents() == [])
      modifies this`last, pipe, queue, queue.nodes
      ensures Valid() && last.None?
      ensures Waiting() == if room then Flowed(old(Waiting())) else old(Waiting())
      ensures fresh(queue.nodes - old(queue.nodes))
    {
      var ok := room;
      if ok {
        assert Waiting().queue == [last.value];
        ok := pipe.WriteIovec(last.value);
        if ok {
          last := None;
        }
      }
      if !ok {
        EnqueueTmp();
      }
      last := None;
    }

    method WriteQueue() returns (ok: bool)
      requires Valid()
      modifies pipe, queue
      ensures Valid() && queue.nodes == old(queue.nodes) && ok == (queue.Contents() == [])
      ensures Flow(pipe.packets, queue.Contents(), pipe.room) ==
        Flowed(Flow(old(pipe.packets), old(queue.Contents()), old(pipe.room)))
    {
      ghost var goal := Flowed(Flow(pipe.packets, queue.Contents(), pipe.room));
      ok := true;
      while ok && queue.head != null
        invariant Valid() && queue.nodes == old(queue.nodes)
        invariant var f := Flow(pipe.packets, queue.Contents(), pipe.room);
          if ok then Flowed(f) == goal else f == goal && f.queue != []
        decreases |queue.links|, ok
      {
        var cur := queue.head;
        ok := pipe.WriteIovec(cur.value);
        if ok {
          var _, _ := queue.Shift();
        }
      }
    }

    method EnqueueAndWrite(p: Packet)
      requires Valid() && last.None?
      modifies this`last, pipe, queue, queue.nodes
      ensures Valid() && last.None? && Waiting() == Passed(old(Waiting()), p)
      ensures fresh(queue.nodes - old(queue.nodes))
    {
      EnqueueWrite(p);
      WriteHandler();
    }

    /** Sends an alert: hands all its packets to the channel one by one, and writes what
        there is room for after each; or refuses it. */
    method SendAlert(a: Alert) returns (ok: bool)
      requires Valid() && last.None?
      modifies this`last, pipe, queue, queue.nodes
      ensures Valid() && last.None? && ok == Sendable(a)
      ensures ok <==> |a.name| + 1 < 0x100 && |a.data| + 0x100 <= 0x1_0000_0000
      ensures Waiting() == if ok then AllPassed(old(Waiting()), Packets(sender, a)) else old(Waiting())
      ensures ok && AllRoom(old(pipe.room)) ==> queue.Contents() == []
    {
      ghost var f := Waiting();
      if AllRoom(f.room) {
        AllRoomPasses(f, Packets(sender, a));
      }
      if |a.name| > NAME_MAX || |a.data| > DATA_MAX {
        return false;
      }
      ok := true;
      if |a.data| + |a.name| <= MAX_BODY {
        assert a.name + a.data == Body(a)[0..|Body(a)|];
        var p := Packet(Header(sender.pid, |a.data| + |a.name|, sender.slot, |a.data| + |a.name|, |a.name|, '$'),
          a.name + a.data);
        assert Packets(sender, a) == [p] && [p][1..] == [];
        EnqueueAndWrite(p);
      } else {
        SendParts(a);
      }
    }

    /** One packet of a long alert: its next piece of the name, and of the data. */
    method SendPart(a: Alert, ctrl: char, nameCur: nat, nameLen: nat, dataCur: nat, dataLen: nat,
                    ghost off: nat, ghost next: nat)
      requires Valid() && last.None? && PieceAt(a, ctrl, nameCur, nameLen, dataCur, dataLen, off)
      requires next == off + nameLen + dataLen
      modifies this`last, pipe, queue, queue.nodes
      ensures Valid() && last.None? && fresh(queue.nodes - old(queue.nodes))
      ensures next <= |Body(a)|
      ensures AllPassed(Waiting(), Parts(sender, a, next)) == AllPassed(old(Waiting()), Parts(sender, a, off))
    {
      var body := a.name[nameCur..nameCur + nameLen] + a.data[dataCur..dataCur + dataLen];
      var p := Packet(Header(sender.pid, |a.data| + |a.name|, sender.slot, nameLen + dataLen, |a.name|, ctrl), body);
      PieceIsPart(sender, a, off, ctrl, nameCur, nameLen, dataCur, dataLen, p);
      PassedFirst(Waiting(), p, Parts(sender, a, next));
      EnqueueAndWrite(p);
    }

    method SendParts(a: Alert)
      requires Valid() && last.None? && Sendable(a) && |Body(a)| > MAX_BODY
      modifies this`last, pipe, queue, queue.nodes
      ensures Valid() && last.None? && Waiting() == AllPassed(old(Waiting()), Parts(sender, a, 0))
    {
      var c := Cursor(|a.name|, |a.data|, 0, 0, 0, 0, 0);
      ghost var off: nat, whole := 0, AllPassed(Waiting(), Parts(sender, a, 0));
      while c.nameLeft + c.dataLeft > 0
        invariant CursorOK(a, c, off) && Valid() && last.None? && fresh(queue.nodes - old(queue.nodes))
        invariant ComesTo(Waiting(), sender, a, off, whole)
        decreases c.nameLeft + c.dataLeft
      {
        c, off := SendNext(a, c, off, whole);
      }
      AllSent(Waiting(), sender, a, off, whole);
    }

    method SendNext(a: Alert, c: Cursor, ghost off: nat, ghost whole: Flow) returns (d: Cursor, ghost next: nat)
      requires Valid() && last.None? && CursorOK(a, c, off) && c.nameLeft + c.dataLeft > 0
      requires ComesTo(Waiting(), sender, a, off, whole)
      modifies this`last, pipe, queue, queue.nodes
      ensures Valid() && last.None? && fresh(queue.nodes - old(queue.nodes))
      ensures CursorOK(a, d, next) && d.nameLeft + d.dataLeft < c.nameLeft + c.dataLeft
      ensures ComesTo(Waiting(), sender, a, next, whole)
    {
      var ctrl := if c.pktnum == 0 then '>' else '+';
      AdvanceOK(a, c, off, ctrl);
      d := Advance(c);
      next := off + d.nameLen + d.dataLen;
      SendPart(a, ctrl, d.nameCur, d.nameLen, d.dataCur, d.dataLen, off, next);
    }
  }

  /** Passing on the packets from byte off on ends in `whole`. */
  ghost predicate ComesTo(f: Flow, s: Sender, a: Alert, off: nat, whole: Flow) {
    off <= |Body(a)| && AllPassed(f, Parts(s, a, off)) == whole
  }

  lemma AllSent(f: Flow, s: Sender, a: Alert, off: nat, whole: Flow)
    requires ComesTo(f, s, a, off, whole) && off == |Body(a)|
    ensures f == whole
  {
  }

  /** What the loop over the pieces of an alert keeps: what is left of name and data, where
      the last piece of each was and how long, and how many packets there were. */
  datatype Cursor = Cursor(nameLeft: nat, dataLeft: nat, nameCur: nat, nameLen: nat, dataCur: nat, dataLen: nat,
                           pktnum: nat)

  function Advance(c: Cursor): (r: Cursor) {
    var nameLen := if c.nameLeft > MAX_BODY then MAX_BODY else c.nameLeft;
    var nameCur := if c.nameLeft == 0 then c.nameCur else c.nameCur + c.nameLen;
    var dataLen := if c.dataLeft > MAX_BODY - nameLen then MAX_BODY - nameLen else c.dataLeft;
    Cursor(c.nameLeft - nameLen, c.dataLeft - dataLen, nameCur, nameLen, c.dataCur + c.dataLen, dataLen, c.pktnum + 1)
  }

  predicate CursorOK(a: Alert, c: Cursor, off: nat) {
    && Sendable(a) && c.nameLeft <= |a.name| && c.nameCur + c.nameLen <= |a.name|
    && c.dataCur + c.dataLen + c.dataLeft == |a.data| && off == |Body(a)| - c.nameLeft - c.dataLeft
    && (c.pktnum == 0) == (off == 0)
    && if c.pktnum == 0 then c.nameLeft == |a.name| && c.dataLeft == |a.data| && c.nameCur == c.nameLen == 0
       else c.nameLeft == 0
  }

  /** The next pieces are those of the next packet. */
  lemma AdvanceOK(a: Alert, c: Cursor, off: nat, ctrl: char)
    requires CursorOK(a, c, off) && c.nameLeft + c.dataLeft > 0 && ctrl == if c.pktnum == 0 then '>' else '+'
    ensures var d := Advance(c);
      && CursorOK(a, d, off + d.nameLen + d.dataLen) && d.nameLeft + d.dataLeft < c.nameLeft + c.dataLeft
      && PieceAt(a, ctrl, d.nameCur, d.nameLen, d.dataCur, d.dataLen, off)
  {
  }

  /** The pieces of name and data at byte off of an alert's body. */
  predicate PieceAt(a: Alert, ctrl: char, nameCur: nat, nameLen: nat, dataCur: nat, dataLen: nat, off: nat) {
    && off < |Body(a)| && |a.name| <= NAME_MAX && nameCur + nameLen <= |a.name| && dataCur + dataLen <= |a.data|
    && nameLen + dataLen == Min(MAX_BODY, |Body(a)| - off) && ctrl == (if off == 0 then '>' else '+')
    && if off == 0 then nameCur == 0 && nameLen == |a.name| && dataCur == 0
       else nameLen == 0 && off == |a.name| + dataCur
  }

  lemma PieceIsPart(s: Sender, a: Alert, off: nat, ctrl: char, nameCur: nat, nameLen: nat, dataCur: nat, dataLen: nat,
      p: Packet)
    requires PieceAt(a, ctrl, nameCur, nameLen, dataCur, dataLen, off)
    requires p == Packet(Header(s.pid, |Body(a)|, s.slot, nameLen + dataLen, |a.name|, ctrl),
                         a.name[nameCur..nameCur + nameLen] + a.data[dataCur..dataCur + dataLen])
    ensures p == Part(s, a, off, ctrl)
    ensures Parts(s, a, off) == [p] + Parts(s, a, off + nameLen + dataLen)
  {
    assert p.body == Body(a)[off..off + nameLen + dataLen];
  }

  // ---------- the reading end ----------

  /** Reading until the pipe is empty or a packet is not to be made sense of. */
  datatype Drained = Drained(bufs: seq<ReadBuf>, delivered: seq<Received>, left: seq<Packet>, fine: bool)

  function Drain(bufs: seq<ReadBuf>, pipe: seq<Packet>): (d: Drained)
    decreases |pipe|
  {
    if pipe == [] then Drained(bufs, [], [], true)
    else
      match ReadPacket(bufs, pipe[0])
      case Read(more, alert) => var d := Drain(more, pipe[1..]); d.(delivered := alert + d.delivered)
      case Complaint(rest) => Drained(rest, [], pipe[1..], false)
      case Overrun => Drained(bufs, [], pipe[1..], false)
  }

  /** What n receive steps make of the system. */
  function Receives(senders: seq<Sender>, y: System, n: nat): (z: System)
    requires Shaped(senders, y)
    ensures Shaped(senders, z)
    decreases n
  {
    if n == 0 then y else Receives(senders, Do(senders, y, Receive), n - 1)
  }

  /** Draining the pipe at once is receiving its packets one by one. */
  lemma {:induction false} DrainIsReceives(senders: seq<Sender>, y: System)
    requires Shaped(senders, y) && !y.broken
    ensures var d := Drain(y.bufs, y.pipe);
      d.fine ==>
        Receives(senders, y, |y.pipe|) == y.(bufs := d.bufs, delivered := y.delivered + d.delivered, pipe := [])
    decreases |y.pipe|
  {
    if y.pipe == [] {
      assert y.delivered + [] == y.delivered;
    } else {
      var r := ReadPacket(y.bufs, y.pipe[0]);
      if r.Read? {
        var z := Do(senders, y, Receive);
        DrainIsReceives(senders, z);
        Regroup(y.delivered, r.alert, Drain(z.bufs, z.pipe).delivered);
      }
    }
  }

  class ReadChannel {
    var bufs: seq<ReadBuf>
    var handled: seq<Received>

    constructor ()
      ensures bufs == [] && handled == []
    {
      bufs, handled := [], [];
    }

    method FreeReadbuf(i: nat)
      requires i < |bufs|
      modifies this`bufs
      ensures bufs == Without(old(bufs), i)
    {
      bufs := bufs[..i] + bufs[i + 1..];
    }

    /** The buffer a part packet goes to; none if the packet does not fit what came before. */
    method GetReadbuf(h: Header) returns (found: bool, at: nat)
      requires h.nameLen <= h.tot
      modifies this`bufs
      ensures var r := GetBuf(old(bufs), h); found == r.Have? && bufs == r.bufs && (found ==> at == r.i)
    {
      at := 0;
      while at < |bufs|
        invariant at <= |bufs| && bufs == old(bufs)
        invariant forall j :: 0 <= j < at ==> bufs[j].header.slot != h.slot
      {
        if bufs[at].header.slot == h.slot {
          FoundAt(bufs, h.slot, at);
          if h.pid != bufs[at].header.pid {
            FreeReadbuf(at);
            break;
          } else if h.ctrl != '+' || h.tot != bufs[at].header.tot {
            FreeReadbuf(at);
            return false, 0;
          } else {
            return true, at;
          }
        }
        at := at + 1;
      }
      if h.ctrl != '>' {
        return false, 0;
      }
      bufs := [NewBuf(h)] + bufs;
      return true, 0;
    }

    method ReadWhole(p: Packet) returns (fine: bool)
      requires p.header.ctrl == '$' && p.header.len <= MAX_BODY && p.header.nameLen <= p.header.tot &&
        |p.body| == p.header.len
      modifies this
      ensures var r := ReadPacket(old(bufs), p);
        fine == r.Read? && bufs == old(bufs) && handled == if fine then old(handled) + r.alert else old(handled)
    {
      var h := p.header;
      if h.tot != h.len || h.nameLen > NAME_MAX {
        return false;
      }
      handled := handled + [Received(h.slot, h.pid, Alert(p.body[..h.nameLen], p.body[h.nameLen..]))];
      fine := true;
    }

    method ReadPart(p: Packet) returns (fine: bool)
      requires (p.header.ctrl == '>' || p.header.ctrl == '+') && p.header.len <= MAX_BODY
      requires p.header.nameLen <= p.header.tot && |p.body| == p.header.len
      modifies this
      ensures var r := ReadPacket(old(bufs), p);
        && fine == r.Read? && (!r.Overrun? ==> bufs == r.bufs)
        && handled == if fine then old(handled) + r.alert else old(handled)
    {
      var h := p.header;
      if h.tot <= h.len {
        return false;
      }
      var found, i := GetReadbuf(h);
      if !found {
        return false;
      }
      if bufs[i].got < h.nameLen && bufs[i].got != 0 {
        return false;
      }
      if !Lands(bufs[i], p) {
        return false;
      }
      bufs := bufs[i := Fill(bufs[i], p)];
      if bufs[i].got == bufs[i].header.tot {
        handled := handled + [Received(h.slot, h.pid, Alert(bufs[i].name, bufs[i].data))];
        FreeReadbuf(i);
      }
      fine := true;
    }

    method ReadOne(p: Packet) returns (fine: bool)
      modifies this
      ensures var r := ReadPacket(old(bufs), p);
        && fine == r.Read? && bufs == (if r.Overrun? then bufs else r.bufs)
        && handled == if fine then old(handled) + r.alert else old(handled)
    {
      var h := p.header;
      if h.len > MAX_BODY || h.nameLen > h.tot || |p.body| != h.len {
        fine := false;
      } else if h.ctrl == '$' {
        fine := ReadWhole(p);
      } else if h.ctrl == '>' || h.ctrl == '+' {
        fine := ReadPart(p);
      } else {
        fine := false;
      }
    }

    /** Reads all the pipe holds. */
    method ReadAll(pipe: Pipe) returns (fine: bool)
      modifies this, pipe
      ensures var d := Drain(old(bufs), old(pipe.packets));
        && fine == d.fine && pipe.packets == d.left && handled == old(handled) + d.delivered &&
          (fine ==> bufs == d.bufs)
    {
      fine := true;
      ghost var goal := Drain(bufs, pipe.packets);
      ghost var had := [];
      while fine && pipe.packets != []
        invariant handled == old(handled) + had
        invariant fine ==> (var d := Drain(bufs, pipe.packets); d.(delivered := had + d.delivered) == goal)
        invariant !fine ==> !goal.fine && pipe.packets == goal.left && had == goal.delivered
        decreases |pipe.packets|
      {
        ghost var r, rest := ReadPacket(bufs, pipe.packets[0]), pipe.packets[1..];
        fine := ReadOne(pipe.packets[0]);
        pipe.packets := pipe.packets[1..];
        if fine {
          Regroup(had, r.alert, Drain(r.bufs, rest).delivered);
          Regroup(old(handled), had, r.alert);
          had := had + r.alert;
        }
      }
    }
  }

  lemma {:induction false} FoundAt(bufs: seq<ReadBuf>, slot: nat, i: nat)
    requires i < |bufs| && bufs[i].header.slot == slot && forall j :: 0 <= j < i ==> bufs[j].header.slot != slot
    ensures FindBuf(bufs, slot) == i
  {
    if i > 0 {
      FoundAt(bufs[1..], slot, i - 1);
    }
  }
}
