/** Which callback gets which reply on an asynchronous connection that is never subscribed
    and never monitors, whatever its callbacks do. */
module Async {
  import opened Basics
  import opened Resp

  /** What a callback may call, in any order; a callback may also be missing. As each runs
      once at most, its calls can be listed. */
  datatype Call = Issue(cb: Callback, len: nat) | Free | Disconnect
  datatype Callback = Callback(calls: Option<seq<Call>>)

  datatype Firing = Firing(cb: Callback, reply: Option<Reply>)

  datatype Abort = Running | UnexpectedReply | PendingAtCleanDisconnect

  /** `accepted`, `fired` and `got` are the past: the callbacks of accepted commands, the
      callbacks called, and the replies matched with one. */
  datatype State = State(
    queue: seq<Callback>,
    disconnecting: bool, freeing: bool, inCallback: bool, err: bool,
    obuf: nat,
    freed: nat, abort: Abort,
    accepted: seq<Callback>, fired: seq<Firing>, got: seq<Reply>)

  predicate Closing(s: State) { s.disconnecting || s.freeing }

  function DoIssue(s: State, cb: Callback, len: nat): State {
    if Closing(s) then s
    else s.(queue := s.queue + [cb], accepted := s.accepted + [cb], obuf := s.obuf + len)
  }

  /** What a call does from inside a callback: freeing and disconnecting are put off. */
  function CallInside(s: State, call: Call): State {
    match call
    case Issue(cb, len) => DoIssue(s, cb, len)
    case Free => s.(freeing := true)
    case Disconnect => s.(disconnecting := true)
  }

  function CallsInside(s: State, calls: seq<Call>): State
    decreases |calls|
  {
    if calls == [] then s else CallsInside(CallInside(s, calls[0]), calls[1..])
  }

  /** A callback is taken off the queue and called. */
  function Fire(s: State, reply: Option<Reply>): State
    requires s.queue != []
  {
    var cb := s.queue[0];
    var t := s.(queue := s.queue[1..], fired := s.fired + [Firing(cb, reply)]);
    if cb.calls.None? then t
    else CallsInside(t.(inCallback := true), cb.calls.value).(inCallback := false)
  }

  lemma {:induction false} ClosingCalls(s: State, calls: seq<Call>)
    requires Closing(s)
    ensures var t := CallsInside(s, calls);
      Closing(t) && t == s.(disconnecting := t.disconnecting, freeing := t.freeing)
      && (s.freeing ==> t.freeing) && (s.disconnecting ==> t.disconnecting)
    decreases |calls|
  {
    if calls != [] {
      ClosingCalls(CallInside(s, calls[0]), calls[1..]);
    }
  }

  /** All pending callbacks are called without a reply, and the connection is freed. */
  function Teardown(s: State): State
    requires Closing(s)
    decreases |s.queue|
  {
    if s.queue == [] then s.(freed := s.freed + 1)
    else
      var t := Fire(s, None);
      ClosingFire(s, None);
      Teardown(t)
  }

  lemma ClosingFire(s: State, reply: Option<Reply>)
    requires Closing(s) && s.queue != []
    ensures var t := Fire(s, reply);
      Closing(t) && t == s.(queue := s.queue[1..], fired := s.fired + [Firing(s.queue[0], reply)],
                            inCallback := t.inCallback, disconnecting := t.disconnecting, freeing := t.freeing)
      && (t.inCallback ==> s.inCallback)
  {
    var cb := s.queue[0];
    if cb.calls.Some? {
      ClosingCalls(s.(queue := s.queue[1..], fired := s.fired + [Firing(cb, reply)], inCallback := true),
        cb.calls.value);
    }
  }

  function DoDisconnect(s: State): State
    requires s.err || Closing(s)
  {
    if !s.err then
      if s.queue != [] then s.(abort := PendingAtCleanDisconnect) else Teardown(s)
    else Teardown(s.(disconnecting := true))
  }

  /** What a call does from outside. */
  function CallOutside(s: State, call: Call): State
    requires !s.inCallback
  {
    match call
    case Issue(cb, len) => DoIssue(s, cb, len)
    case Free => Teardown(s.(freeing := true))
    case Disconnect =>
      var t := s.(disconnecting := true);
      if t.queue == [] then DoDisconnect(t) else t
  }

  /** Replies come in, and then, perhaps, bytes that are no reply. */
  function Process(s: State, inbox: seq<Reply>, broken: bool): State
    decreases |inbox|
  {
    if inbox == [] then
      if broken then DoDisconnect(s.(err := true))
      else if s.disconnecting && s.obuf == 0 && s.queue == [] then DoDisconnect(s)
      else s
    else if s.queue == [] then
      if inbox[0].Error? then DoDisconnect(s.(err := true)) else s.(abort := UnexpectedReply)
    else
      var t := Fire(s.(got := s.got + [inbox[0]]), Some(inbox[0]));
      if s.queue[0].calls.Some? && t.freeing then Teardown(t)
      else Process(t, inbox[1..], broken)
  }

  /** What happens to a connection: a call from outside; the socket can be read, which fails
      or brings replies; it can be written, which fails or takes some bytes. */
  datatype Event =
    | Outside(call: Call)
    | Readable(failed: bool, inbox: seq<Reply>, broken: bool)
    | Writable(failed: bool, written: nat)

  predicate Over(s: State) { s.freed > 0 || s.abort != Running }

  function Do(s: State, e: Event): State
    requires !s.inCallback
  {
    if Over(s) then s
    else
      match e
      case Outside(call) => CallOutside(s, call)
      case Readable(failed, inbox, broken) =>
        if failed then DoDisconnect(s.(err := true)) else Process(s, inbox, broken)
      case Writable(failed, written) =>
        if failed then DoDisconnect(s.(err := true))
        else s.(obuf := if written <= s.obuf then s.obuf - written else 0)
  }

  const START := State([], false, false, false, false, 0, 0, Running, [], [], [])

  // ---------- conservation of callbacks ----------

  /** The callbacks called are those accepted first, in order; the others are queued. The
      first were called with the replies, in order, and the others with none. */
  ghost predicate Conserved(s: State) {
    && |s.got| <= |s.fired| <= |s.accepted|
    && s.queue == s.accepted[|s.fired|..]
    && (forall k :: 0 <= k < |s.fired| ==> s.fired[k].cb == s.accepted[k])
    && (forall k :: 0 <= k < |s.got| ==> s.fired[k].reply == Some(s.got[k]))
    && (forall k :: |s.got| <= k < |s.fired| ==> s.fired[k].reply == None)
  }

  /** Each callback called has had its reply, and the connection is there. */
  ghost predicate Matched(s: State) {
    Conserved(s) && |s.got| == |s.fired| && s.freed == 0 && s.abort == Running && !s.inCallback
  }

  /** Between events, a connection that is there has not been asked to be freed. */
  ghost predicate Live(s: State) { Matched(s) && !s.freeing }

  ghost predicate Gone(s: State) {
    Conserved(s) && s.queue == [] && s.freed == 1 && s.abort == Running && !s.inCallback
  }

  lemma IssueConserves(s: State, cb: Callback, len: nat)
    requires Conserved(s)
    ensures Conserved(DoIssue(s, cb, len))
  {
    var t := DoIssue(s, cb, len);
    if !Closing(s) {
      assert t.accepted[|t.fired|..] == s.accepted[|s.fired|..] + [cb];
    }
  }

  lemma {:induction false} CallsConserve(s: State, calls: seq<Call>)
    requires Conserved(s)
    ensures Conserved(CallsInside(s, calls)) && SameEnds(s, CallsInside(s, calls))
    decreases |calls|
  {
    if calls != [] {
      CallConservesInside(s, calls[0]);
      CallsConserve(CallInside(s, calls[0]), calls[1..]);
    }
  }

  /** What calls from inside a callback leave alone. */
  predicate SameEnds(s: State, t: State) {
    && t.fired == s.fired && t.got == s.got && t.freed == s.freed && t.abort == s.abort
    && t.inCallback == s.inCallback
  }

  lemma CallConservesInside(s: State, call: Call)
    requires Conserved(s)
    ensures Conserved(CallInside(s, call)) && SameEnds(s, CallInside(s, call))
  {
    if call.Issue? {
      IssueConserves(s, call.cb, call.len);
    }
  }

  lemma FireConserves(s: State, reply: Reply)
    requires Matched(s) && s.queue != []
    ensures Matched(Fire(s.(got := s.got + [reply]), Some(reply)))
    ensures |Fire(s.(got := s.got + [reply]), Some(reply)).got| == |s.got| + 1
  {
    var cb := s.queue[0];
    var t := s.(got := s.got + [reply], queue := s.queue[1..], fired := s.fired + [Firing(cb, Some(reply))]);
    assert cb == s.accepted[|s.fired|];
    assert Matched(t);
    if cb.calls.Some? {
      CallsConserve(t.(inCallback := true), cb.calls.value);
    }
  }

  lemma {:induction false} TeardownConserves(s: State)
    requires Closing(s) && Conserved(s) && s.freed == 0 && s.abort == Running && !s.inCallback
    ensures Gone(Teardown(s)) && Teardown(s).accepted == s.accepted && Teardown(s).got == s.got
    decreases |s.queue|
  {
    if s.queue != [] {
      ClosingFire(s, None);
      assert s.queue[0] == s.accepted[|s.fired|];
      TeardownConserves(Fire(s, None));
    }
  }

  lemma DisconnectConserves(s: State)
    requires Live(s) && (s.err || (Closing(s) && s.queue == []))
    ensures Gone(DoDisconnect(s)) && DoDisconnect(s).accepted == s.accepted && DoDisconnect(s).got == s.got
  {
    TeardownConserves(if s.err then s.(disconnecting := true) else s);
  }

  /** How replies come out: the connection lives on, is gone, or the code gives up because a
      reply came that no command had asked for. */
  ghost predicate Fair(s: State) {
    Live(s) || Gone(s) || (s.abort == UnexpectedReply && s.queue == [] && Live(s.(abort := Running)))
  }

  lemma {:induction false} ProcessConserves(s: State, inbox: seq<Reply>, broken: bool)
    requires Live(s)
    ensures Fair(Process(s, inbox, broken)) && Process(s, inbox, broken).got <= s.got + inbox
    ensures Live(Process(s, inbox, broken)) ==> Process(s, inbox, broken).got == s.got + inbox
    decreases |inbox|
  {
    if inbox == [] {
      if broken {
        DisconnectConserves(s.(err := true));
      } else if s.disconnecting && s.obuf == 0 && s.queue == [] {
        DisconnectConserves(s);
      }
    } else if s.queue == [] {
      if inbox[0].Error? {
        DisconnectConserves(s.(err := true));
      }
    } else {
      var t := ReplyConserves(s, inbox[0]);
      if s.queue[0].calls.Some? && t.freeing {
        TeardownConserves(t);
      } else {
        ProcessConserves(t, inbox[1..], broken);
      }
      assert t.got + inbox[1..] == s.got + inbox;
    }
  }

  lemma ReplyConserves(s: State, reply: Reply) returns (t: State)
    requires Matched(s) && s.queue != []
    ensures t == Fire(s.(got := s.got + [reply]), Some(reply)) && Matched(t) && t.got == s.got + [reply]
    ensures s.queue[0].calls == None ==> t.freeing == s.freeing
  {
    t := Fire(s.(got := s.got + [reply]), Some(reply));
    FireConserves(s, reply);
    FireGot(s.(got := s.got + [reply]), Some(reply));
  }

  lemma FireGot(s: State, reply: Option<Reply>)
    requires s.queue != []
    ensures Fire(s, reply).got == s.got
  {
    var cb := s.queue[0];
    if cb.calls.Some? {
      CallsKeepGot(s.(queue := s.queue[1..], fired := s.fired + [Firing(cb, reply)], inCallback := true),
        cb.calls.value);
    }
  }

  lemma {:induction false} CallsKeepGot(s: State, calls: seq<Call>)
    ensures CallsInside(s, calls).got == s.got
    decreases |calls|
  {
    if calls != [] {
      CallsKeepGot(CallInside(s, calls[0]), calls[1..]);
    }
  }

  lemma CallConserves(s: State, call: Call)
    requires Live(s)
    ensures Fair(CallOutside(s, call)) && CallOutside(s, call).got == s.got
  {
    match call
    case Issue(cb, len) => IssueConserves(s, cb, len);
    case Free => TeardownConserves(s.(freeing := true));
    case Disconnect => if s.queue == [] { DisconnectConserves(s.(disconnecting := true)); }
  }

  /** The replies an event brings. */
  function Brings(e: Event): seq<Reply> {
    if e.Readable? && !e.failed then e.inbox else []
  }

  lemma EventConserves(s: State, e: Event)
    requires Live(s)
    ensures Fair(Do(s, e)) && Do(s, e).got <= s.got + Brings(e)
    ensures Live(Do(s, e)) ==> Do(s, e).got == s.got + Brings(e)
  {
    match e
    case Outside(call) =>
      CallConserves(s, call);
    case Readable(failed, inbox, broken) =>
      if failed { DisconnectConserves(s.(err := true)); } else { ProcessConserves(s, inbox, broken); }
    case Writable(failed, written) =>
      if failed { DisconnectConserves(s.(err := true)); }
  }

  lemma DoConserves(s: State, e: Event)
    requires Fair(s)
    ensures Fair(Do(s, e))
  {
    if !Over(s) {
      EventConserves(s, e);
    }
  }

  /** A run: what the events have made of a new connection. */
  ghost function Run(events: seq<Event>): (s: State)
    ensures Fair(s)
  {
    if events == [] then START
    else
      var last := |events| - 1;
      var s := Run(events[..last]);
      DoConserves(s, events[last]);
      Do(s, events[last])
  }

  /** The replies that came. */
  function Came(events: seq<Event>): seq<Reply> {
    if events == [] then [] else Came(events[..|events| - 1]) + Brings(events[|events| - 1])
  }

  /** After any events, whatever the callbacks call: the k-th accepted command's callback has
      been called once, with the k-th reply that came or, at the end, with none; the
      connection is freed once at most, and then no callback is left; and a clean disconnect
      leaves none. */
  lemma {:induction false} CallbacksConserved(events: seq<Event>)
    ensures var s := Run(events);
      && Fair(s) && s.freed <= 1 && s.abort != PendingAtCleanDisconnect
      && (s.freed == 1 ==> |s.fired| == |s.accepted|)
      && s.got <= Came(events) && (Live(s) ==> s.got == Came(events))
  {
    if events != [] {
      var last := |events| - 1;
      CallbacksConserved(events[..last]);
      if !Over(Run(events[..last])) {
        EventConserves(Run(events[..last]), events[last]);
      }
    }
  }

  // ---------- what callbacks ask for is done ----------

  /** Freeing and disconnecting are flagged exactly if some call asks for them. */
  lemma {:induction false} CallsFlag(s: State, calls: seq<Call>)
    ensures var t := CallsInside(s, calls);
      && (t.freeing <==> s.freeing || Free in calls) && (t.disconnecting <==> s.disconnecting || Disconnect in calls)
      && t.fired == s.fired
    decreases |calls|
  {
    if calls != [] {
      assert calls == [calls[0]] + calls[1..];
      CallsFlag(CallInside(s, calls[0]), calls[1..]);
    }
  }

  /** The commands issued before a callback asks to free or to disconnect. */
  function Issued(calls: seq<Call>): (cbs: seq<Callback>) {
    if calls == [] || !calls[0].Issue? then [] else [calls[0].cb] + Issued(calls[1..])
  }

  /** Those are accepted, on a connection that is not closing, and no others. */
  lemma {:induction false} IssuedAreAccepted(s: State, calls: seq<Call>)
    ensures var t, cbs := CallsInside(s, calls), if Closing(s) then [] else Issued(calls);
      t.accepted == s.accepted + cbs && t.queue == s.queue + cbs
    decreases |calls|
  {
    if calls == [] || Closing(s) {
      CallsWhenClosing(s, calls);
    } else {
      var u := CallInside(s, calls[0]);
      IssuedAreAccepted(u, calls[1..]);
      if calls[0].Issue? {
        Regroup(s.accepted, [calls[0].cb], Issued(calls[1..]));
        Regroup(s.queue, [calls[0].cb], Issued(calls[1..]));
      }
    }
  }

  lemma CallsWhenClosing(s: State, calls: seq<Call>)
    requires calls == [] || Closing(s)
    ensures var t := CallsInside(s, calls); t.accepted == s.accepted + [] && t.queue == s.queue + []
  {
    if Closing(s) { ClosingCalls(s, calls); }
  }

  /** A callback that was called and asked to free has the flag set; so with disconnecting. */
  ghost predicate Heeded(s: State) {
    forall k :: 0 <= k < |s.fired| && s.fired[k].cb.calls.Some? ==>
      && (Free in s.fired[k].cb.calls.value ==> s.freeing)
      && (Disconnect in s.fired[k].cb.calls.value ==> s.disconnecting)
  }

  lemma FireHeeds(s: State, reply: Option<Reply>)
    requires Heeded(s) && s.queue != []
    ensures Heeded(Fire(s, reply))
  {
    var cb := s.queue[0];
    if cb.calls.Some? {
      CallsFlag(s.(queue := s.queue[1..], fired := s.fired + [Firing(cb, reply)], inCallback := true), cb.calls.value);
    }
  }

  lemma {:induction false} TeardownHeeds(s: State)
    requires Heeded(s) && Closing(s)
    ensures Heeded(Teardown(s))
    decreases |s.queue|
  {
    if s.queue != [] {
      FireHeeds(s, None);
      ClosingFire(s, None);
      TeardownHeeds(Fire(s, None));
    }
  }

  lemma DisconnectHeeds(s: State)
    requires Heeded(s) && (s.err || Closing(s))
    ensures Heeded(DoDisconnect(s))
  {
    if s.err {
      TeardownHeeds(s.(disconnecting := true));
    } else {
      TeardownHeeds(s);
    }
  }

  lemma {:induction false} ProcessHeeds(s: State, inbox: seq<Reply>, broken: bool)
    requires Heeded(s)
    ensures Heeded(Process(s, inbox, broken))
    decreases |inbox|
  {
    if inbox == [] || s.queue == [] {
      DisconnectHeeds(s.(err := true));
      if Closing(s) { DisconnectHeeds(s); }
    } else {
      var t := s.(got := s.got + [inbox[0]]);
      FireHeeds(t, Some(inbox[0]));
      var u := Fire(t, Some(inbox[0]));
      if u.freeing { TeardownHeeds(u); }
      ProcessHeeds(u, inbox[1..], broken);
    }
  }

  lemma DoHeeds(s: State, e: Event)
    requires Heeded(s) && !s.inCallback
    ensures Heeded(Do(s, e))
  {
    if !Over(s) {
      match e
      case Outside(call) =>
        TeardownHeeds(s.(freeing := true));
        DisconnectHeeds(s.(disconnecting := true));
      case Readable(_, inbox, broken) =>
        DisconnectHeeds(s.(err := true));
        ProcessHeeds(s, inbox, broken);
      case Writable(_, _) =>
        DisconnectHeeds(s.(err := true));
    }
  }

  /** After any events: a connection that some callback asked to free has been freed, and
      one that some callback asked to disconnect is disconnecting. */
  lemma {:induction false} AskedIsDone(events: seq<Event>)
    ensures var s := Run(events);
      && Heeded(s) && (s.freeing ==> s.freed == 1)
      && forall k :: 0 <= k < |s.fired| && s.fired[k].cb.calls.Some? && Free in s.fired[k].cb.calls.value ==>
           s.freed == 1
  {
    if events != [] {
      var last := |events| - 1;
      AskedIsDone(events[..last]);
      DoHeeds(Run(events[..last]), events[last]);
    }
  }

  /** From outside, freeing is done at once, disconnecting as soon as nothing is pending, and
      a command is taken unless the connection is disconnecting. */
  lemma OutsideIsDone(s: State, cb: Callback, len: nat)
    requires Live(s)
    ensures Do(s, Outside(Free)).freed == 1
    ensures var t := Do(s, Outside(Disconnect)); t.disconnecting && t.freed == if s.queue == [] then 1 else 0
    ensures var t := Do(s, Outside(Issue(cb, len)));
      t == if s.disconnecting then s
           else s.(queue := s.queue + [cb], accepted := s.accepted + [cb], obuf := s.obuf + len)
  {
    TeardownConserves(s.(freeing := true));
  }

  /** A new connection is open and has done nothing. */
  lemma NewIsOpen(cb: Callback, len: nat)
    ensures Live(Run([])) && Run([Outside(Issue(cb, len))]).accepted == [cb] && Run([]).fired == [] && !Run([]).err
  {
    assert [Outside(Issue(cb, len))][..0] == [];
  }

  /** A reply that nothing waits for: an error closes the connection, any other is the
      assertion that fails. */
  lemma Unasked(s: State, inbox: seq<Reply>, broken: bool)
    requires Live(s) && s.queue == [] && inbox != []
    ensures var t := Process(s, inbox, broken);
      if inbox[0].Error? then t.freed == 1 && t.err && t.abort == Running else t == s.(abort := UnexpectedReply)
  {
    TeardownConserves(s.(err := true, disconnecting := true));
  }

  /** When the replies at hand have been read, a disconnecting connection with nothing
      pending and nothing to write is gone. */
  lemma {:induction false} ReadsOut(s: State, inbox: seq<Reply>)
    requires Live(s)
    ensures var t := Process(s, inbox, false);
      t == Do(s, Readable(false, inbox, false)) && !(Live(t) && t.disconnecting && t.queue == [] && t.obuf == 0)
    decreases |inbox|
  {
    if inbox == [] {
      if s.disconnecting && s.obuf == 0 && s.queue == [] {
        DisconnectConserves(s);
      }
    } else if s.queue == [] {
      if inbox[0].Error? {
        DisconnectConserves(s.(err := true));
      }
    } else {
      var t := ReplyConserves(s, inbox[0]);
      if t.freeing {
        TeardownConserves(t);
      } else {
        ReadsOut(t, inbox[1..]);
      }
    }
  }

  /** A failure ends the connection; bytes that are no reply do so after the replies before
      them. */
  lemma FailureEnds(s: State, e: Event)
    requires Live(s)
    ensures !e.Outside? && e.failed ==> Do(s, e).freed == 1
    ensures e.Readable? && !e.failed && e.broken ==> Over(Do(s, e))
  {
    DisconnectConserves(s.(err := true));
    if e.Readable? && !e.failed && e.broken {
      BrokenEnds(s, e.inbox);
    }
  }

  lemma {:induction false} BrokenEnds(s: State, inbox: seq<Reply>)
    requires Live(s)
    ensures Over(Process(s, inbox, true))
    decreases |inbox|
  {
    if inbox == [] || s.queue == [] {
      DisconnectConserves(s.(err := true));
    } else {
      var t := ReplyConserves(s, inbox[0]);
      if t.freeing {
        TeardownConserves(t);
      } else {
        BrokenEnds(t, inbox[1..]);
      }
    }
  }

  // ---------- a connection that closes takes no more commands ----------

  lemma {:induction false} TeardownAccepts(s: State)
    requires Closing(s)
    ensures Teardown(s).accepted == s.accepted
    decreases |s.queue|
  {
    if s.queue != [] {
      ClosingFire(s, None);
      TeardownAccepts(Fire(s, None));
    }
  }

  lemma {:induction false} ProcessAccepts(s: State, inbox: seq<Reply>, broken: bool)
    requires Closing(s)
    ensures Process(s, inbox, broken).accepted == s.accepted
    ensures !Over(Process(s, inbox, broken)) ==> Closing(Process(s, inbox, broken))
    decreases |inbox|
  {
    if inbox == [] || s.queue == [] {
      TeardownAccepts(s.(err := true, disconnecting := true));
      TeardownAccepts(s);
      TeardownOver(s.(err := true, disconnecting := true));
      TeardownOver(s);
    } else {
      var t := s.(got := s.got + [inbox[0]]);
      ClosingFire(t, Some(inbox[0]));
      var u := Fire(t, Some(inbox[0]));
      TeardownAccepts(u);
      TeardownOver(u);
      ProcessAccepts(u, inbox[1..], broken);
    }
  }

  lemma {:induction false} TeardownOver(s: State)
    requires Closing(s)
    ensures Over(Teardown(s))
    decreases |s.queue|
  {
    if s.queue != [] {
      ClosingFire(s, None);
      TeardownOver(Fire(s, None));
    }
  }

  /** Once disconnecting or freeing has begun, no command is accepted: not by what is called
      from outside, not by callbacks with replies, and not by those during teardown. */
  lemma ClosingAcceptsNone(s: State, e: Event)
    requires Closing(s) && !s.inCallback
    ensures Do(s, e).accepted == s.accepted && (Over(Do(s, e)) || Closing(Do(s, e)))
  {
    if !Over(s) {
      var d := s.(err := true, disconnecting := true);
      TeardownAccepts(d);
      TeardownAccepts(s.(freeing := true));
      TeardownAccepts(s.(disconnecting := true));
      TeardownOver(d);
      TeardownOver(s.(freeing := true));
      TeardownOver(s.(disconnecting := true));
      if e.Readable? {
        ProcessAccepts(s, e.inbox, e.broken);
      }
    }
  }
}
