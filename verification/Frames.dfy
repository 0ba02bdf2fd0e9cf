/** Message frames on the wire, and the one way to cut a byte stream into them. */
module Frames {
  import opened Bytes

  const HEADER_SIZE: nat := 24
  const COMMAND_SIZE: nat := 12
  const MESSAGE_SIZE_OFFSET: nat := 16
  const CHECKSUM_OFFSET: nat := 20
  const MAX_SIZE: nat := 0x0200_0000

  // ----- frames

  /** The four magic bytes of the network and the first four bytes of the payload hash. */
  datatype Net = Net(start: seq<byte>, checksum: seq<byte> -> seq<byte>) {
    ghost predicate Valid() { |start| == 4 && forall p :: |checksum(p)| == 4 }
  }

  datatype Message = Message(command: seq<byte>, payload: seq<byte>)

  /** The bytes before the first zero. */
  function CString(c: seq<byte>): (r: seq<byte>)
    ensures |r| <= |c| && (forall i :: 0 <= i < |r| ==> r[i] == c[i] != 0) && (|r| < |c| ==> c[|r|] == 0)
  {
    if c == [] || c[0] == 0 then [] else [c[0]] + CString(c[1..])
  }

  /** strncpy into the command field: cut to length, padded with zeros. */
  function Command(c: seq<byte>): (r: seq<byte>)
    ensures |r| == COMMAND_SIZE
  {
    var s := CString(c);
    seq(COMMAND_SIZE, i requires 0 <= i < COMMAND_SIZE => if i < |s| then s[i] else 0)
  }

  /** The command a header carries; a field without a zero at its end is taken whole. */
  function GetCommand(pchCommand: seq<byte>): seq<byte>
    requires |pchCommand| == COMMAND_SIZE
  {
    if pchCommand[COMMAND_SIZE - 1] == 0 then CString(pchCommand) else pchCommand
  }

  /** Exactly a command of at most twelve bytes without zeros is read back; a longer one is cut. */
  lemma CommandReadsBack(c: seq<byte>)
    ensures GetCommand(Command(c)) == c <==> |c| <= 12 && 0 !in c
    ensures |c| > 12 && 0 !in c ==> GetCommand(Command(c)) == c[..12]
  {
    var s, f := CString(c), Command(c);
    if |s| < 12 {
      assert f[|s|] == 0;
      assert forall i :: 0 <= i < |s| ==> f[i] != 0;
      assert CString(f) == s;
    }
  }

  ghost function Frame(net: Net, m: Message): (f: seq<byte>)
    requires net.Valid() && |m.payload| < UINT_LIMIT
    ensures |f| == HEADER_SIZE + |m.payload|
  {
    net.start + Command(m.command) + LE4(|m.payload|) + net.checksum(m.payload) + m.payload
  }

  function SizeField(b: seq<byte>): nat
    requires |b| >= HEADER_SIZE
  {
    FromLE4(b[MESSAGE_SIZE_OFFSET..CHECKSUM_OFFSET])
  }

  lemma FrameFields(net: Net, m: Message)
    requires net.Valid() && |m.payload| < UINT_LIMIT
    ensures var f := Frame(net, m);
      f[..4] == net.start && f[4..16] == Command(m.command) && SizeField(f) == |m.payload|
      && f[20..24] == net.checksum(m.payload) && f[24..] == m.payload
  {
    LE4Inverse(|m.payload|);
    var f := Frame(net, m);
    assert f[16..20] == LE4(|m.payload|);
  }

  function Flat(msgs: seq<seq<byte>>): seq<byte> {
    if msgs == [] then [] else msgs[0] + Flat(msgs[1..])
  }

  lemma {:induction false} FlatAppend(a: seq<seq<byte>>, b: seq<seq<byte>>)
    ensures Flat(a + b) == Flat(a) + Flat(b)
  {
    if a == [] {
      assert a + b == b;
    } else {
      FlatAppend(a[1..], b);
      assert (a + b)[1..] == a[1..] + b && (a + b)[0] == a[0];
    }
  }

  lemma FlatOne(m: seq<byte>)
    ensures Flat([m]) == m
  {}

  // ----- cutting a stream

  predicate Oversize(b: seq<byte>) { |b| >= HEADER_SIZE && SizeField(b) > 0x0200_0000 }

  predicate Whole(b: seq<byte>) { |b| >= HEADER_SIZE && SizeField(b) <= 0x0200_0000 && |b| == HEADER_SIZE + SizeField(b) }

  predicate Partial(b: seq<byte>) {
    b != [] && (|b| < HEADER_SIZE || (SizeField(b) <= 0x0200_0000 && |b| < HEADER_SIZE + SizeField(b)))
  }

  /** The frames of a stream; what is left over at the end is a frame that is not complete yet. */
  function Split(s: seq<byte>): seq<seq<byte>>
    decreases |s|
  {
    if s == [] then []
    else if |s| < HEADER_SIZE || |s| <= HEADER_SIZE + SizeField(s) then [s]
    else [s[..HEADER_SIZE + SizeField(s)]] + Split(s[HEADER_SIZE + SizeField(s)..])
  }

  /** Some header in the stream announces more than MAX_SIZE. */
  predicate Rejected(s: seq<byte>)
    decreases |s|
  {
    Oversize(s) ||
    (|s| >= HEADER_SIZE && |s| > HEADER_SIZE + SizeField(s) && Rejected(s[HEADER_SIZE + SizeField(s)..]))
  }

  /** A list of complete frames, the last of which may be incomplete. */
  ghost predicate Framed(msgs: seq<seq<byte>>) {
    forall i :: 0 <= i < |msgs| ==> Whole(msgs[i]) || (i == |msgs| - 1 && Partial(msgs[i]))
  }

  /** Splitting is the only way to cut a stream into frames, and such a stream is never rejected. */
  lemma {:induction false} SplitFramed(msgs: seq<seq<byte>>)
    requires Framed(msgs)
    ensures Split(Flat(msgs)) == msgs && !Rejected(Flat(msgs))
  {
    if msgs != [] {
      var m, rest := msgs[0], msgs[1..];
      assert forall i :: 0 <= i < |rest| ==> rest[i] == msgs[i + 1];
      SplitFramed(rest);
      if rest == [] {
        assert Flat(msgs) == m;
      } else {
        assert Whole(m) && Flat(msgs)[|m|..] == Flat(rest) && Flat(msgs)[..|m|] == m;
        assert msgs == [m] + rest;
      }
    }
  }

  /** An oversize header behind complete frames makes the stream rejected, whatever follows. */
  lemma {:induction false} RejectedBehind(msgs: seq<seq<byte>>, bad: seq<byte>, more: seq<byte>)
    requires (forall i :: 0 <= i < |msgs| ==> Whole(msgs[i])) && Oversize(bad)
    ensures Rejected(Flat(msgs) + bad + more)
  {
    var s := Flat(msgs) + bad + more;
    if msgs == [] {
      assert s == bad + more;
    } else {
      var m, rest := msgs[0], msgs[1..];
      RejectedBehind(rest, bad, more);
      assert s == m + (Flat(rest) + bad + more);
      assert s[|m|..] == Flat(rest) + bad + more;
    }
  }

  // ----- end to end

  ghost function AllFrames(net: Net, sent: seq<Message>): (f: seq<seq<byte>>)
    requires net.Valid() && forall m <- sent :: |m.payload| <= MAX_SIZE
    ensures |f| == |sent| && forall i :: 0 <= i < |sent| ==> f[i] == Frame(net, sent[i])
  {
    seq(|sent|, i requires 0 <= i < |sent| => Frame(net, sent[i]))
  }

  /** What a receiver makes of any prefix of the frames sent: the first ones in order, and at most one incomplete. */
  lemma {:induction false} PrefixFramed(net: Net, sent: seq<Message>, received: seq<byte>) returns (k: nat)
    requires net.Valid() && forall m <- sent :: |m.payload| <= MAX_SIZE
    requires received <= Flat(AllFrames(net, sent))
    ensures k <= |sent| && !Rejected(received)
    ensures |Split(received)| == k || (|Split(received)| == k + 1 && k < |sent|)
    ensures forall i :: 0 <= i < k ==> Split(received)[i] == Frame(net, sent[i])
    ensures |Split(received)| == k + 1 ==> Partial(Split(received)[k]) && Split(received)[k] < Frame(net, sent[k])
  {
    hide Frame;
    if received == [] {
      k := 0;
    } else {
      var f, rest := Frame(net, sent[0]), sent[1..];
      FrameSize(net, sent[0]);
      TailFrames(net, sent);
      if |received| < |f| {
        k := 0;
        assert received == f[..|received|];
      } else {
        var tail := received[|f|..];
        assert received == f + tail;
        TailPrefix(f, tail, Flat(AllFrames(net, rest)), received, Flat(AllFrames(net, sent)));
        var j := PrefixFramed(net, rest, tail);
        k := j + 1;
        SplitFirst(f, tail);
      }
    }
  }

  lemma FrameSize(net: Net, m: Message)
    requires net.Valid() && |m.payload| <= MAX_SIZE
    ensures Whole(Frame(net, m))
  {
    FrameFields(net, m);
  }

  lemma TailFrames(net: Net, sent: seq<Message>)
    requires net.Valid() && (forall m <- sent :: |m.payload| <= MAX_SIZE) && sent != []
    ensures forall m <- sent[1..] :: |m.payload| <= MAX_SIZE
    ensures Flat(AllFrames(net, sent)) == Frame(net, sent[0]) + Flat(AllFrames(net, sent[1..]))
  {
    hide Frame;
    assert forall m <- sent[1..] :: m in sent;
    assert AllFrames(net, sent)[1..] == AllFrames(net, sent[1..]);
  }

  lemma TailPrefix(f: seq<byte>, tail: seq<byte>, rest: seq<byte>, received: seq<byte>, all: seq<byte>)
    requires received == f + tail && all == f + rest && received <= all
    ensures tail <= rest
  {
    assert tail == received[|f|..] && rest == all[|f|..];
    assert received == all[..|received|];
  }

  lemma SplitFirst(f: seq<byte>, tail: seq<byte>)
    requires Whole(f) && !Rejected(tail)
    ensures Split(f + tail) == [f] + Split(tail) && !Rejected(f + tail)
  {
    assert (f + tail)[..|f|] == f && (f + tail)[|f|..] == tail;
    if tail == [] { assert f + tail == f; }
  }
}
