/** The connection as an object: its list of pending callbacks, its flags, and its output
    buffer. Callbacks call its methods while it is in the middle of others. */
module AsyncContext {
  import opened Basics
  import opened Resp
  import opened Async
  import opened Queues

  class Context {
    const replies: Queue<Callback>
    var disconnecting: bool
    var freeing: bool
    var inCallback: bool
    var err: bool
    var obuf: nat
    var freed: nat
    var abort: Abort
    ghost var accepted: seq<Callback>
    ghost var fired: seq<Firing>
    ghost var got: seq<Reply>

    ghost predicate Valid()
      reads this, replies, replies.nodes
    {
      replies.Valid()
    }

    ghost function View(): State
      reads this, replies
    {
      State(replies.Contents(), disconnecting, freeing, inCallback, err, obuf, freed, abort, accepted, fired, got)
    }

    constructor ()
      ensures Valid() && View() == START && fresh(replies) && replies.nodes == {}
    {
      disconnecting, freeing, inCallback, err, obuf, freed, abort := false, false, false, false, 0, 0, Running;
      accepted, fired, got := [], [], [];
      replies := new Queue();
    }

    /** Takes a command with its callback, unless the connection is closing. */
    method Command(cb: Callback, len: nat) returns (ok: bool)
      requires Valid()
      modifies this`obuf, this`accepted, replies, replies.nodes
      ensures Valid() && View() == DoIssue(old(View()), cb, len) && ok == !Closing(old(View()))
      ensures accepted == old(accepted) + (if ok then [cb] else [])
      ensures replies.Contents() == old(replies.Contents()) + (if ok then [cb] else [])
      ensures fresh(replies.nodes - old(replies.nodes))
    {
      if disconnecting || freeing {
        return false;
      }
      replies.Push(cb);
      obuf := obuf + len;
      accepted := accepted + [cb];
      ok := true;
    }

    /** Calls a callback taken off the list, with all that the callback calls in turn. */
    method RunCallback(cb: Callback, ghost reply: Option<Reply>)
      requires Valid() && !inCallback
      modifies this, replies, replies.nodes
      ensures Valid() && fresh(replies.nodes - old(replies.nodes))
      ensures var s := old(View()).(fired := old(fired) + [Firing(cb, reply)]);
        View() == if cb.calls.None? then s
          else CallsInside(s.(inCallback := true), cb.calls.value).(inCallback := false)
      decreases 1, 0
    {
      fired := fired + [Firing(cb, reply)];
      if cb.calls.Some? {
        inCallback := true;
        RunCalls(cb.calls.value);
        inCallback := false;
      }
    }

    method RunCalls(calls: seq<Call>)
      requires Valid() && inCallback
      modifies this, replies, replies.nodes
      ensures Valid() && View() == CallsInside(old(View()), calls) && fresh(replies.nodes - old(replies.nodes)) &&
        inCallback
      decreases 0, 9
    {
      ghost var start := View();
      for i := 0 to |calls|
        invariant Valid() && inCallback && fresh(replies.nodes - old(replies.nodes))
        invariant CallsInside(View(), calls[i..]) == CallsInside(start, calls)
      {
        assert calls[i..][1..] == calls[i + 1..];
        CallOne(calls[i]);
      }
    }

    method CallOne(call: Call)
      requires Valid() && inCallback
      modifies this, replies, replies.nodes
      ensures Valid() && View() == CallInside(old(View()), call) && fresh(replies.nodes - old(replies.nodes)) &&
        inCallback
      decreases 0, 8
    {
      match call
      case Issue(cb, len) => var _ := Command(cb, len);
      case Free => FreeAsync();
      case Disconnect => DisconnectAsync();
    }

    /** Calls what is pending, without replies, and frees the connection. */
    method FreeContext()
      requires Valid() && !inCallback && Closing(View())
      modifies this, replies, replies.nodes
      ensures Valid() && View() == Teardown(old(View())) && fresh(replies.nodes - old(replies.nodes))
      decreases 1, 2
    {
      ghost var start := View();
      while true
        invariant Valid() && !inCallback && Closing(View()) && fresh(replies.nodes - old(replies.nodes))
        invariant Teardown(View()) == Teardown(start)
        decreases |View().queue|
      {
        ghost var s := View();
        var found, cb := replies.Shift();
        if !found {
          break;
        }
        ClosingFire(s, None);
        RunCallback(cb.value, None);
        assert View() == Fire(s, None);
      }
      freed := freed + 1;
    }

    /** Frees at once, or later if called from a callback. */
    method FreeAsync()
      requires Valid()
      modifies this, replies, replies.nodes
      ensures Valid() && fresh(replies.nodes - old(replies.nodes))
      ensures View() == if old(inCallback) then CallInside(old(View()), Free) else CallOutside(old(View()), Free)
      decreases if inCallback then 0 else 1, 5
    {
      freeing := true;
      if !inCallback {
        FreeContext();
      }
    }

    /** Frees after a clean end or an error. */
    method DisconnectNow()
      requires Valid() && !inCallback && (err || Closing(View()))
      modifies this, replies, replies.nodes
      ensures Valid() && View() == DoDisconnect(old(View())) && fresh(replies.nodes - old(replies.nodes))
      decreases 1, 4
    {
      if !err {
        if replies.head != null {
          abort := PendingAtCleanDisconnect;
          return;
        }
      } else {
        disconnecting := true;
      }
      FreeContext();
    }

    method DisconnectAsync()
      requires Valid()
      modifies this, replies, replies.nodes
      ensures Valid() && fresh(replies.nodes - old(replies.nodes))
      ensures View() == if old(inCallback) then CallInside(old(View()), Disconnect)
        else CallOutside(old(View()), Disconnect)
      decreases if inCallback then 0 else 1, 5
    {
      disconnecting := true;
      if !inCallback && replies.head == null {
        DisconnectNow();
      }
    }

    /** Gives a reply to the callback that waits for it; false if the connection ended. */
    method TakeReply(reply: Reply, ghost inbox: seq<Reply>, ghost broken: bool) returns (go: bool)
      requires Valid() && !inCallback && inbox != [] && inbox[0] == reply
      modifies this, replies, replies.nodes
      ensures Valid() && fresh(replies.nodes - old(replies.nodes)) && (go ==> !inCallback)
      ensures Process(old(View()), inbox, broken) == if go then Process(View(), inbox[1..], broken) else View()
    {
      ghost var s := View();
      var found, cb := replies.Shift();
      if !found {
        if reply.Error? {
          err := true;
          DisconnectNow();
        } else {
          abort := UnexpectedReply;
        }
        return false;
      }
      got := got + [reply];
      RunCallback(cb.value, Some(reply));
      assert View() == Fire(s.(got := s.got + [reply]), Some(reply));
      go := !(cb.value.calls.Some? && freeing);
      if !go {
        FreeContext();
      }
    }

    /** Gives each reply to the callback that waits for it, until none is left. */
    method ProcessCallbacks(inbox: seq<Reply>, broken: bool)
      requires Valid() && !inCallback
      modifies this, replies, replies.nodes
      ensures Valid() && View() == Process(old(View()), inbox, broken)
    {
      ghost var goal := Process(View(), inbox, broken);
      for i := 0 to |inbox|
        invariant Valid() && !inCallback && fresh(replies.nodes - old(replies.nodes))
        invariant goal == Process(View(), inbox[i..], broken)
      {
        assert inbox[i..][1..] == inbox[i + 1..];
        var go := TakeReply(inbox[i], inbox[i..], broken);
        if !go {
          return;
        }
      }
      if broken {
        err := true;
        DisconnectNow();
      } else if disconnecting && obuf == 0 && replies.head == null {
        DisconnectNow();
      }
    }

    method HandleRead(failed: bool, inbox: seq<Reply>, broken: bool)
      requires Valid() && !inCallback && !Over(View())
      modifies this, replies, replies.nodes
      ensures Valid() && View() == Do(old(View()), Readable(failed, inbox, broken))
    {
      if failed {
        err := true;
        DisconnectNow();
      } else {
        ProcessCallbacks(inbox, broken);
      }
    }

    method HandleWrite(failed: bool, written: nat)
      requires Valid() && !inCallback && !Over(View())
      modifies this, replies, replies.nodes
      ensures Valid() && View() == Do(old(View()), Writable(failed, written))
    {
      if failed {
        err := true;
        DisconnectNow();
      } else {
        obuf := if written <= obuf then obuf - written else 0;
      }
    }
  }
}
