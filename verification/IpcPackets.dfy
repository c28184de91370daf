/** Alerts cut into packets, and packets put together into alerts again. */
module IpcPackets {
  import opened Basics

  const PIPE_BUF: nat := 4096
  const HEADER_SIZE: nat := 16
  const MAX_BODY: nat := PIPE_BUF - HEADER_SIZE
  const NAME_MAX: nat := 254
  const DATA_MAX: nat := 0xffff_ffff - NAME_MAX - 1

  datatype Alert = Alert(name: seq<Byte>, data: seq<Byte>)

  predicate Sendable(a: Alert) { |a.name| <= NAME_MAX && |a.data| <= DATA_MAX }

  /** '$' is a whole alert, '>' the first part of one, '+' a further part. */
  datatype Header = Header(pid: int, tot: nat, slot: nat, len: nat, nameLen: nat, ctrl: char)
  datatype Packet = Packet(header: Header, body: seq<Byte>)

  /** What a sender puts in every header. */
  datatype Sender = Sender(slot: nat, pid: int)

  function Body(a: Alert): (b: seq<Byte>)
    ensures |b| == |a.name| + |a.data|
  {
    a.name + a.data
  }

  function Min(a: nat, b: nat): nat { if a < b then a else b }

  function Part(s: Sender, a: Alert, off: nat, ctrl: char): (p: Packet)
    requires off <= |Body(a)|
  {
    var len := Min(MAX_BODY, |Body(a)| - off);
    Packet(Header(s.pid, |Body(a)|, s.slot, len, |a.name|, ctrl), Body(a)[off..off + len])
  }

  /** The packets of a long alert from byte off of its body on. */
  function Parts(s: Sender, a: Alert, off: nat): (ps: seq<Packet>)
    requires off <= |Body(a)|
    decreases |Body(a)| - off
  {
    if off == |Body(a)| then []
    else [Part(s, a, off, if off == 0 then '>' else '+')] + Parts(s, a, off + Min(MAX_BODY, |Body(a)| - off))
  }

  /** All the packets of an alert. */
  function Packets(s: Sender, a: Alert): (ps: seq<Packet>) {
    if |Body(a)| <= MAX_BODY then [Part(s, a, 0, '$')] else Parts(s, a, 0)
  }

  function AllPackets(s: Sender, alerts: seq<Alert>): (ps: seq<Packet>) {
    if alerts == [] then [] else Packets(s, alerts[0]) + AllPackets(s, alerts[1..])
  }

  lemma {:induction false} AllPacketsAdd(s: Sender, alerts: seq<Alert>, a: Alert)
    ensures AllPackets(s, alerts + [a]) == AllPackets(s, alerts) + Packets(s, a)
  {
    if alerts == [] {
      assert [a][1..] == [];
    } else {
      assert (alerts + [a])[1..] == alerts[1..] + [a];
      AllPacketsAdd(s, alerts[1..], a);
      assert Packets(s, alerts[0]) + (AllPackets(s, alerts[1..]) + Packets(s, a)) ==
             (Packets(s, alerts[0]) + AllPackets(s, alerts[1..])) + Packets(s, a);
    }
  }

  /** What is sent: a name that with a zero behind it fits a length of 8 bits, and data that
      beside the longest name fit one of 32. */
  lemma SendableIff(a: Alert)
    ensures Sendable(a) <==> |a.name| + 1 < 0x100 && |a.data| + 0x100 <= 0x1_0000_0000
  {
  }

  /** No packet is longer than what a pipe writes at once, and none is longer than its
      header's 16-bit length field, or its 8-bit name length, can say. */
  lemma {:induction false} PacketsFit(s: Sender, a: Alert, off: nat)
    requires Sendable(a) && off <= |Body(a)|
    ensures forall p :: p in Parts(s, a, off) ==>
      && |p.body| == p.header.len <= MAX_BODY && HEADER_SIZE + |p.body| <= PIPE_BUF
      && p.header.len < 0x1_0000 && p.header.tot < 0x1_0000_0000 && p.header.nameLen < 0x100
      && p.header.tot == |a.name| + |a.data| && p.header.nameLen == |a.name|
      && p.header.slot == s.slot && p.header.pid == s.pid
    decreases |Body(a)| - off
  {
    if off < |Body(a)| {
      PacketsFit(s, a, off + Min(MAX_BODY, |Body(a)| - off));
    }
  }

  /** The bodies of packets, one after the other. */
  function Bodies(ps: seq<Packet>): (b: seq<Byte>) {
    if ps == [] then [] else ps[0].body + Bodies(ps[1..])
  }

  /** The packets of an alert carry its name and then its data, in as few packets of 4096
      bytes, header and all, as will do, and in at least one. */
  lemma PacketsCarry(s: Sender, a: Alert)
    ensures var ps := Packets(s, a);
      && Bodies(ps) == a.name + a.data
      && (|ps| - 1) * (4096 - 16) < |a.name| + |a.data| + (if |ps| == 1 then 1 else 0)
      && |a.name| + |a.data| <= |ps| * (4096 - 16)
  {
    if |Body(a)| <= MAX_BODY {
      var p := Part(s, a, 0, '$');
      assert Body(a)[0..|Body(a)|] == Body(a);
      assert [p][1..] == [] && p.body + [] == p.body;
    } else {
      PartsCarry(s, a, 0);
      assert Body(a)[0..] == Body(a);
    }
  }

  lemma {:induction false} PartsCarry(s: Sender, a: Alert, off: nat)
    requires off <= |Body(a)|
    ensures var ps, left := Parts(s, a, off), |Body(a)| - off;
      && Bodies(ps) == Body(a)[off..]
      && left <= |ps| * MAX_BODY && (left > 0 ==> (|ps| - 1) * MAX_BODY < left) && (left == 0 ==> ps == [])
    decreases |Body(a)| - off
  {
    if off < |Body(a)| {
      var next := off + Min(MAX_BODY, |Body(a)| - off);
      PartsCarry(s, a, next);
      assert Parts(s, a, off)[1..] == Parts(s, a, next);
      assert Body(a)[off..] == Body(a)[off..next] + Body(a)[next..];
    }
  }

  // ---------- reassembly ----------

  /** A buffer for an alert of known length: the name, the data, and how much of the two
      together has been read. */
  datatype ReadBuf = ReadBuf(header: Header, name: seq<Byte>, data: seq<Byte>, got: nat)

  datatype Received = Received(slot: nat, pid: int, alert: Alert)

  /** What reading one packet does: the buffers left and, at the end of an alert, the
      alert; or a complaint, after which the code throws away what the pipe holds; or a
      write outside the buffer, against which the code does not check. */
  datatype ReadResult =
    | Read(bufs: seq<ReadBuf>, alert: seq<Received>)
    | Complaint(bufs: seq<ReadBuf>)
    | Overrun

  /** The index of the buffer of a slot; the number of buffers if it has none. */
  function FindBuf(bufs: seq<ReadBuf>, slot: nat): (i: nat)
    ensures i <= |bufs| && (i < |bufs| ==> bufs[i].header.slot == slot)
    ensures forall j :: 0 <= j < i ==> bufs[j].header.slot != slot
  {
    if bufs == [] then 0 else if bufs[0].header.slot == slot then 0 else 1 + FindBuf(bufs[1..], slot)
  }

  function Without(bufs: seq<ReadBuf>, i: nat): (r: seq<ReadBuf>)
    requires i < |bufs|
  {
    bufs[..i] + bufs[i + 1..]
  }

  /** New bytes over old ones, inside the buffer. */
  function Splice(old_: seq<Byte>, at: nat, bytes: seq<Byte>): (r: seq<Byte>)
    requires at + |bytes| <= |old_|
    ensures |r| == |old_|
  {
    old_[..at] + bytes + old_[at + |bytes|..]
  }

  function NewBuf(h: Header): ReadBuf
    requires h.nameLen <= h.tot
  {
    ReadBuf(h, seq(h.nameLen, _ => 0), seq(h.tot - h.nameLen, _ => 0), 0)
  }

  /** The buffer for a part packet: the one its slot has, or a fresh one in front. */
  datatype BufResult = Have(bufs: seq<ReadBuf>, i: nat) | NoBuf(bufs: seq<ReadBuf>)

  function GetBuf(bufs: seq<ReadBuf>, h: Header): (r: BufResult)
    requires h.nameLen <= h.tot
    ensures r.Have? ==> r.i < |r.bufs|
  {
    var i := FindBuf(bufs, h.slot);
    if i < |bufs| && h.pid == bufs[i].header.pid then
      if h.ctrl != '+' || h.tot != bufs[i].header.tot then NoBuf(Without(bufs, i)) else Have(bufs, i)
    else
      var rest := if i < |bufs| then Without(bufs, i) else bufs;
      if h.ctrl != '>' then NoBuf(rest) else Have([NewBuf(h)] + rest, 0)
  }

  /** A buffer is as long as its alert, and no more was read than that. */
  predicate BufOK(b: ReadBuf) {
    && b.header.nameLen <= b.header.tot
    && |b.name| == b.header.nameLen && |b.data| == b.header.tot - b.header.nameLen && b.got <= b.header.tot
  }

  /** The packet's bytes would land inside the buffer. */
  predicate Lands(b: ReadBuf, p: Packet) {
    && BufOK(b) && p.header.nameLen == b.header.nameLen && b.got + |p.body| <= b.header.tot
    && (b.got < b.header.nameLen ==> b.header.nameLen <= |p.body|)
  }

  /** One packet's body into its buffer: name and data, or further data. */
  function Fill(b: ReadBuf, p: Packet): (r: ReadBuf)
    requires Lands(b, p) && (b.got < b.header.nameLen ==> b.got == 0)
    ensures BufOK(r) && r.header == b.header && r.got == b.got + |p.body|
  {
    var n := b.header.nameLen;
    if b.got < n then b.(name := p.body[..n], data := Splice(b.data, 0, p.body[n..]), got := |p.body|)
    else b.(data := Splice(b.data, b.got - n, p.body), got := b.got + |p.body|)
  }

  function ReadPacket(bufs: seq<ReadBuf>, p: Packet): (r: ReadResult) {
    var h := p.header;
    if h.len > MAX_BODY || h.nameLen > h.tot || |p.body| != h.len then Complaint(bufs)
    else if h.ctrl == '$' then
      if h.tot != h.len then Complaint(bufs)
      else if h.nameLen > NAME_MAX then Overrun
      else Read(bufs, [Received(h.slot, h.pid, Alert(p.body[..h.nameLen], p.body[h.nameLen..]))])
    else if h.ctrl == '>' || h.ctrl == '+' then
      if h.tot <= h.len then Complaint(bufs)
      else
        match GetBuf(bufs, h)
        case NoBuf(rest) => Complaint(rest)
        case Have(have, i) =>
          if have[i].got < h.nameLen && have[i].got != 0 then Complaint(have)
          else if !Lands(have[i], p) then Overrun
          else
            var b := Fill(have[i], p);
            if b.got == b.header.tot then Read(Without(have, i), [Received(h.slot, h.pid, Alert(b.name, b.data))])
            else Read(have[i := b], [])
    else Complaint(bufs)
  }

  // ---------- one packet of an alert arrives ----------

  /** b holds the first `off` bytes of a's body. */
  ghost predicate IsPartial(b: ReadBuf, s: Sender, a: Alert, off: nat) {
    && MAX_BODY <= off < |Body(a)| && |a.name| <= NAME_MAX
    && b.header == Part(s, a, 0, '>').header
    && BufOK(b) && b.got == off && b.name == a.name
    && b.data[..off - |a.name|] == a.data[..off - |a.name|]
  }

  lemma ArriveWhole(bufs: seq<ReadBuf>, s: Sender, a: Alert)
    requires Sendable(a) && |Body(a)| <= MAX_BODY
    ensures ReadPacket(bufs, Part(s, a, 0, '$')) == Read(bufs, [Received(s.slot, s.pid, a)])
  {
    assert Body(a)[0..|Body(a)|] == Body(a);
    assert Body(a)[..|a.name|] == a.name && Body(a)[|a.name|..] == a.data;
  }

  lemma ArriveFirst(bufs: seq<ReadBuf>, s: Sender, a: Alert)
    requires Sendable(a) && |Body(a)| > MAX_BODY && FindBuf(bufs, s.slot) == |bufs|
    ensures var r := ReadPacket(bufs, Part(s, a, 0, '>'));
      r.Read? && r.alert == [] && |r.bufs| == |bufs| + 1 && r.bufs == [r.bufs[0]] + bufs &&
        IsPartial(r.bufs[0], s, a, MAX_BODY)
  {
    var p := Part(s, a, 0, '>');
    var b := NewBuf(p.header);
    FirstFills(s, a, p, b);
    assert ([b] + bufs)[0 := Fill(b, p)] == [Fill(b, p)] + bufs;
  }

  lemma FirstFills(s: Sender, a: Alert, p: Packet, b: ReadBuf)
    requires Sendable(a) && |Body(a)| > MAX_BODY && p == Part(s, a, 0, '>') && b == NewBuf(p.header)
    ensures Lands(b, p) && IsPartial(Fill(b, p), s, a, MAX_BODY)
  {
    var n, f := |a.name|, Fill(b, p);
    assert p.body == Body(a)[0..MAX_BODY];
    assert p.body[..n] == a.name;
    assert f.data[..MAX_BODY - n] == p.body[n..] == a.data[..MAX_BODY - n];
    assert n == 0 ==> f.name == a.name;
  }

  lemma ArriveNext(bufs: seq<ReadBuf>, i: nat, s: Sender, a: Alert, off: nat)
    requires Sendable(a) && i < |bufs| && FindBuf(bufs, s.slot) == i && IsPartial(bufs[i], s, a, off)
    ensures off + Min(MAX_BODY, |Body(a)| - off) == |Body(a)| ==>
      ReadPacket(bufs, Part(s, a, off, '+')) == Read(Without(bufs, i), [Received(s.slot, s.pid, a)])
    ensures off + Min(MAX_BODY, |Body(a)| - off) < |Body(a)| ==> (
      var r := ReadPacket(bufs, Part(s, a, off, '+'));
      && r.Read? && r.alert == [] && |r.bufs| == |bufs| && r.bufs == bufs[i := r.bufs[i]]
      && IsPartial(r.bufs[i], s, a, off + MAX_BODY))
  {
    var p, n, b := Part(s, a, off, '+'), |a.name|, bufs[i];
    var len := |p.body|;
    var f := Fill(b, p);
    assert p.body == Body(a)[off..off + len] == a.data[off - n..off + len - n];
    assert f.data[..off + len - n] == b.data[..off - n] + p.body == a.data[..off + len - n];
    if off + len == |Body(a)| {
      assert f.data[..off + len - n] == f.data && a.data[..off + len - n] == a.data;
    }
  }

  /** A part packet that is in order by itself. */
  predicate PartInOrder(p: Packet) {
    && p.header.len == |p.body| <= MAX_BODY && p.header.nameLen <= |p.body| < p.header.tot
    && (p.header.ctrl == '>' || p.header.ctrl == '+')
  }

  /** A part that does not go on with what its slot had sent drops that; the first part of
      another process's alert then starts anew, and anything else is a complaint. */
  lemma MisfitDrops(bufs: seq<ReadBuf>, i: nat, p: Packet)
    requires PartInOrder(p) && i == FindBuf(bufs, p.header.slot) && i < |bufs|
    ensures var h := bufs[i].header;
      && (p.header.pid == h.pid && (p.header.ctrl == '>' || p.header.tot != h.tot) ==>
            ReadPacket(bufs, p) == Complaint(Without(bufs, i)))
      && (p.header.pid != h.pid && p.header.ctrl == '+' ==> ReadPacket(bufs, p) == Complaint(Without(bufs, i)))
      && (p.header.pid != h.pid && p.header.ctrl == '>' ==>
            var r := ReadPacket(bufs, p);
            && r.Read? && r.alert == [] && |r.bufs| == |bufs| && r.bufs[1..] == Without(bufs, i)
            && r.bufs[0].header == p.header && r.bufs[0].got == |p.body|)
  {
  }
}
