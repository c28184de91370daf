/** Commands as they are sent: the length is counted first, the bytes are laid down next. */
module RespFormat {
  import opened Basics
  import opened Resp
  import opened RespDrain

  /** A command is an array of its arguments. */
  function Command(args: seq<seq<Byte>>): (r: Reply) { Array(|args|, Strings(args)) }

  function Strings(args: seq<seq<Byte>>): (items: seq<Reply>)
    ensures |items| == |args| && forall i :: 0 <= i < |args| ==> items[i] == String(args[i])
  {
    seq(|args|, i requires 0 <= i < |args| => String(args[i]))
  }

  method CountDigits(n: nat) returns (count: nat)
    ensures count == |Digits(n)|
  {
    var v := n;
    count := 1;
    while true
      invariant count - 1 + |Digits(v)| == |Digits(n)|
      decreases v
    {
      DigitsOf(v);
      if v < 10 { return; }
      if v < 100 { return count + 1; }
      if v < 1000 { return count + 2; }
      if v < 10000 { return count + 3; }
      v := v / 10000;
      count := count + 4;
    }
  }

  lemma DigitsOf(v: nat)
    ensures v < 10 ==> |Digits(v)| == 1
    ensures 10 <= v < 100 ==> |Digits(v)| == 2
    ensures 100 <= v < 1000 ==> |Digits(v)| == 3
    ensures 1000 <= v < 10000 ==> |Digits(v)| == 4
    ensures v >= 10000 ==> |Digits(v)| == 4 + |Digits(v / 10000)|
  {
    var a, b, c := v / 10, v / 10 / 10, v / 10 / 10 / 10;
    assert v >= 10 ==> |Digits(v)| == 1 + |Digits(a)|;
    assert a >= 10 ==> |Digits(a)| == 1 + |Digits(b)|;
    assert b >= 10 ==> |Digits(b)| == 1 + |Digits(c)|;
    assert c >= 10 ==> |Digits(c)| == 1 + |Digits(c / 10)|;
    assert c / 10 == v / 10000;
  }

  method BulkLen(len: nat) returns (n: nat)
    ensures n == 1 + |Digits(len)| + 2 + len + 2
  {
    var d := CountDigits(len);
    n := 1 + d + 2 + len + 2;
  }

  lemma {:induction false} ItemsAdd(items: seq<Reply>, r: Reply)
    ensures EncodeItems(items + [r]) == EncodeItems(items) + Encode(r)
  {
    if items == [] {
      assert [r][1..] == [];
      assert EncodeItems([r]) == Encode(r) + [];
    } else {
      assert (items + [r])[1..] == items[1..] + [r];
      ItemsAdd(items[1..], r);
    }
  }

  /** The bytes of a command up to its k-th argument. */
  function Begun(args: seq<seq<Byte>>, k: nat): seq<Byte>
    requires k <= |args|
  {
    Line(STAR, Decimal(|args|)) + EncodeItems(Strings(args[..k]))
  }

  lemma BegunNext(args: seq<seq<Byte>>, k: nat)
    requires k < |args|
    ensures Begun(args, k + 1) == Begun(args, k) + Line(DOLLAR, Decimal(|args[k]|)) + args[k] + CRLF
  {
    assert Strings(args[..k + 1]) == Strings(args[..k]) + [String(args[k])];
    ItemsAdd(Strings(args[..k]), String(args[k]));
    var e := EncodeItems(Strings(args[..k]));
    var l := Line(DOLLAR, Decimal(|args[k]|));
    assert Encode(String(args[k])) == l + args[k] + CRLF;
    assert Line(STAR, Decimal(|args|)) + (e + (l + args[k] + CRLF)) ==
      Line(STAR, Decimal(|args|)) + e + l + args[k] + CRLF;
  }

  lemma BegunAll(args: seq<seq<Byte>>)
    ensures Begun(args, |args|) == Encode(Command(args))
  {
    assert args[..|args|] == args;
  }

  /** The length of a command, before any of it is written. */
  method TotalLen(args: seq<seq<Byte>>) returns (totlen: nat)
    ensures totlen == |Encode(Command(args))|
  {
    var d := CountDigits(|args|);
    totlen := 1 + d + 2;
    for j := 0 to |args|
      invariant totlen == |Begun(args, j)|
    {
      var n := BulkLen(|args[j]|);
      totlen := totlen + n;
      BegunNext(args, j);
    }
    BegunAll(args);
  }

  /** Bytes over those of a buffer. */
  method Put(cmd: array<Byte>, pos: nat, bytes: seq<Byte>)
    requires pos + |bytes| <= cmd.Length
    modifies cmd
    ensures cmd[..] == old(cmd[..pos]) + bytes + old(cmd[pos + |bytes|..])
  {
    for i := 0 to |bytes|
      invariant cmd[..pos + i] == old(cmd[..pos]) + bytes[..i]
      invariant cmd[pos + i..] == old(cmd[pos + i..])
    {
      cmd[pos + i] := bytes[i];
      assert cmd[..pos + i + 1] == cmd[..pos + i] + [bytes[i]];
      assert old(cmd[pos + i..])[1..] == old(cmd[pos + i + 1..]);
      assert cmd[pos + i + 1..] == cmd[pos + i..][1..];
    }
    assert cmd[..] == cmd[..pos + |bytes|] + cmd[pos + |bytes|..];
  }

  /** Prints into the buffer, with a zero behind. */
  method Print(cmd: array<Byte>, pos: nat, bytes: seq<Byte>) returns (next: nat)
    requires pos + |bytes| < cmd.Length
    modifies cmd
    ensures next == pos + |bytes| && cmd[..next] == old(cmd[..pos]) + bytes
  {
    Put(cmd, pos, bytes + [0]);
    next := pos + |bytes|;
    assert cmd[..next] == (old(cmd[..pos]) + (bytes + [0]) + old(cmd[pos + |bytes + [0]|..]))[..next];
  }

  method PutAt(cmd: array<Byte>, pos: nat, bytes: seq<Byte>) returns (next: nat)
    requires pos + |bytes| < cmd.Length
    modifies cmd
    ensures next == pos + |bytes| && cmd[..next] == old(cmd[..pos]) + bytes
  {
    Put(cmd, pos, bytes);
    next := pos + |bytes|;
    assert cmd[..next] == (old(cmd[..pos]) + bytes + old(cmd[pos + |bytes|..]))[..next];
  }

  /** One argument: its length on a line, its bytes, and a line end. */
  method PutArgument(cmd: array<Byte>, pos: nat, arg: seq<Byte>) returns (next: nat)
    requires pos + |Line(DOLLAR, Decimal(|arg|))| + |arg| + 2 < cmd.Length
    modifies cmd
    ensures next == pos + |Line(DOLLAR, Decimal(|arg|))| + |arg| + 2
    ensures cmd[..next] == old(cmd[..pos]) + Line(DOLLAR, Decimal(|arg|)) + arg + CRLF
  {
    next := Print(cmd, pos, Line(DOLLAR, Decimal(|arg|)));
    next := PutAt(cmd, next, arg);
    ghost var was := cmd[..next];
    cmd[next] := CR;
    next := next + 1;
    cmd[next] := LF;
    next := next + 1;
    assert cmd[..next] == was + CRLF;
  }

  lemma BegunFits(args: seq<seq<Byte>>, k: nat)
    requires k <= |args|
    ensures |Begun(args, k)| <= |Encode(Command(args))|
    decreases |args| - k
  {
    if k < |args| {
      BegunNext(args, k);
      BegunFits(args, k + 1);
    } else {
      BegunAll(args);
    }
  }

  /** A command in a buffer of just its length, and a zero behind it. */
  method FormatCommandArgv(args: seq<seq<Byte>>) returns (cmd: array<Byte>, totlen: nat)
    ensures cmd.Length == totlen + 1 && cmd[..totlen] == Encode(Command(args)) && cmd[totlen] == 0
  {
    totlen := TotalLen(args);
    BegunFits(args, 0);
    cmd := new Byte[totlen + 1](_ => 0);
    var pos := Print(cmd, 0, Line(STAR, Decimal(|args|)));
    for j := 0 to |args|
      invariant pos == |Begun(args, j)| && pos <= totlen && cmd[..pos] == Begun(args, j)
    {
      BegunNext(args, j);
      BegunFits(args, j + 1);
      pos := PutArgument(cmd, pos, args[j]);
    }
    BegunAll(args);
    assert pos == totlen;
    cmd[pos] := 0;
    assert cmd[..pos] == Begun(args, |args|);
  }

  /** The same command by appending to a string. */
  method FormatSdsCommandArgv(args: seq<seq<Byte>>) returns (cmd: seq<Byte>, totlen: nat)
    ensures cmd == Encode(Command(args)) && totlen == |cmd|
  {
    totlen := TotalLen(args);
    cmd := Line(STAR, Decimal(|args|));
    for j := 0 to |args|
      invariant cmd == Begun(args, j)
    {
      cmd := cmd + Line(DOLLAR, Decimal(|args[j]|));
      cmd := cmd + args[j];
      cmd := cmd + CRLF;
      BegunNext(args, j);
    }
    BegunAll(args);
    assert |cmd| == totlen;
  }

  lemma {:induction false} StringsFlat(items: seq<Reply>)
    requires forall i :: 0 <= i < |items| ==> items[i].String?
    ensures DepthItems(items) == 0
  {
    if items != [] {
      StringsFlat(items[1..]);
    }
  }

  /** A formatted command, cut into pieces in any way, reads as one array of exactly its
      arguments, with nothing left over. */
  lemma CommandReadsBack(args: seq<seq<Byte>>, pieces: seq<seq<Byte>>)
    requires Concat(pieces) == Encode(Command(args))
    ensures Feeds(pieces) == Drained([Command(args)], [ROOT], [], None)
  {
    CuttingDoesNotMatter(pieces);
    StringsFlat(Strings(args));
    ReaderUndoesEncode(Command(args), []);
    assert Encode(Command(args)) + [] == Encode(Command(args));
  }
}
