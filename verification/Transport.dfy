/** The two ends of a connection: the send queue, emptied by partial sends, and the parser that
    puts messages together from chunks of any size. */
module Transport {
  import opened Wrappers
  import opened Bytes
  import opened Frames

  function Total(msgs: seq<seq<byte>>): nat { if msgs == [] then 0 else |msgs[0]| + Total(msgs[1..]) }

  lemma {:induction false} TotalAppend(a: seq<seq<byte>>, m: seq<byte>)
    ensures Total(a + [m]) == Total(a) + |m|
  {
    if a == [] {
      assert a + [m] == [m] && [m][1..] == [];
    } else {
      TotalAppend(a[1..], m);
      assert (a + [m])[1..] == a[1..] + [m];
    }
  }

  /** The part of the queue that is still to be sent. */
  function Unsent(msgs: seq<seq<byte>>, offset: nat): seq<byte>
    requires msgs != [] ==> offset <= |msgs[0]|
  {
    if msgs == [] then [] else msgs[0][offset..] + Flat(msgs[1..])
  }

  /** Overwriting the size and the checksum of a written message gives its frame. */
  lemma Patched(net: Net, m: Message, ss: seq<byte>)
    requires net.Valid() && |m.payload| <= MAX_SIZE && ss == net.start + Command(m.command) + LE4(0) + LE4(0) + m.payload
    ensures |ss| == HEADER_SIZE + |m.payload| && ss[HEADER_SIZE..] == m.payload
    ensures var s1 := ss[..MESSAGE_SIZE_OFFSET] + LE4(|m.payload|) + ss[CHECKSUM_OFFSET..];
      |s1| == |ss| && s1[HEADER_SIZE..] == m.payload
      && s1[..CHECKSUM_OFFSET] + net.checksum(m.payload) + s1[HEADER_SIZE..] == Frame(net, m)
  {}

  lemma SentSome(msgs: seq<seq<byte>>, it: nat, offset: nat, n: nat, wire: seq<byte>)
    requires it < |msgs| && offset + n <= |msgs[it]|
    ensures wire + Unsent(msgs[it..], offset) == (wire + msgs[it][offset..offset + n]) + Unsent(msgs[it..], offset + n)
  {
    hide Flat;
    var data := msgs[it];
    assert msgs[it..][0] == data;
    var a, b, rest := data[offset..offset + n], data[offset + n..], Flat(msgs[it..][1..]);
    assert data[offset..] == a + b;
    Regroup(a, b, rest);
    Regroup(wire, a, b + rest);
  }

  lemma SentAll(msgs: seq<seq<byte>>, it: nat)
    requires it < |msgs|
    ensures Unsent(msgs[it..], |msgs[it]|) == Unsent(msgs[it + 1..], 0)
    ensures Total(msgs[it..]) == |msgs[it]| + Total(msgs[it + 1..])
  {}

  lemma NothingUnsent(msgs: seq<seq<byte>>, offset: nat)
    requires msgs == [] ==> offset == 0
    ensures msgs == [] ==> Total(msgs) == 0
  {}

  class SendQueue {
    const net: Net
    var ssSend: seq<byte>
    var nSendSize: int
    var nSendOffset: nat
    var vSendMsg: seq<seq<byte>>
    /** Every message ever completed, and every byte the socket ever took. */
    ghost var sent: seq<Message>
    ghost var wire: seq<byte>

    ghost predicate Valid()
      reads this
    {
      && net.Valid()
      && nSendSize == Total(vSendMsg)
      && (forall i :: 0 <= i < |vSendMsg| ==> vSendMsg[i] != [])
      && (if vSendMsg == [] then nSendOffset == 0 else nSendOffset < |vSendMsg[0]|)
      && (forall m <- sent :: |m.payload| <= MAX_SIZE)
      && wire + Unsent(vSendMsg, nSendOffset) == Flat(AllFrames(net, sent))
    }

    constructor (net: Net)
      requires net.Valid()
      ensures Valid() && this.net == net && sent == [] && wire == [] && ssSend == []
    {
      this.net := net;
      ssSend, nSendSize, nSendOffset, vSendMsg := [], 0, 0, [];
      sent, wire := [], [];
    }

    /** Sends as much as the socket takes; each call of `send` may take any number of the bytes offered, or fail. */
    method SocketSendData()
      requires Valid()
      modifies this`nSendSize, this`nSendOffset, this`vSendMsg, this`wire
      ensures Valid() && old(wire) <= wire
    {
      hide Flat, AllFrames, Unsent, Total;
      var it := 0;
      ghost var all := wire + Unsent(vSendMsg, nSendOffset);
      assert vSendMsg[0..] == vSendMsg;
      while it < |vSendMsg|
        invariant it <= |vSendMsg| && vSendMsg == old(vSendMsg) && old(wire) <= wire
        invariant nSendSize == Total(vSendMsg[it..])
        invariant if it == |vSendMsg| then nSendOffset == 0 else nSendOffset < |vSendMsg[it]|
        invariant wire + Unsent(vSendMsg[it..], nSendOffset) == all
      {
        var data := vSendMsg[it];
        assert |data| > nSendOffset;
        var nBytes: int :| nBytes <= |data| - nSendOffset;
        if nBytes > 0 {
          SentSome(vSendMsg, it, nSendOffset, nBytes, wire);
          wire := wire + data[nSendOffset..nSendOffset + nBytes];
          nSendOffset := nSendOffset + nBytes;
          if nSendOffset == |data| {
            SentAll(vSendMsg, it);
            nSendOffset := 0;
            nSendSize := nSendSize - |data|;
            it := it + 1;
          } else {
            break;
          }
        } else {
          break;
        }
      }
      NothingUnsent(vSendMsg[it..], nSendOffset);
      if it == |vSendMsg| {
        assert nSendOffset == 0;
        assert nSendSize == 0;
      }
      vSendMsg := vSendMsg[it..];
    }

    method BeginMessage(pszCommand: seq<byte>)
      requires Valid() && ssSend == []
      modifies this`ssSend
      ensures Valid() && ssSend == net.start + Command(pszCommand) + LE4(0) + LE4(0)
    {
      ssSend := net.start + Command(pszCommand) + LE4(0) + LE4(0);
    }

    method Write(bytes: seq<byte>)
      requires Valid()
      modifies this`ssSend
      ensures Valid() && ssSend == old(ssSend) + bytes
    {
      ssSend := ssSend + bytes;
    }

    method AbortMessage()
      requires Valid()
      modifies this`ssSend
      ensures Valid() && ssSend == []
    {
      ssSend := [];
    }

    /** Completes the header and queues the message; an empty queue is sent from at once. `m` is what was written. */
    method EndMessage(drop: bool, ghost m: Message)
      requires Valid() && |m.payload| <= MAX_SIZE
      requires ssSend == [] || ssSend == net.start + Command(m.command) + LE4(0) + LE4(0) + m.payload
      modifies this
      ensures Valid() && ssSend == [] && old(wire) <= wire
      ensures sent == if drop || old(ssSend) == [] then old(sent) else old(sent) + [m]
    {
      hide Frame, LE4, Command, Flat, Unsent, AllFrames, Total;
      if drop {
        AbortMessage();
        return;
      }
      if |ssSend| == 0 { return; }
      var nSize := |ssSend| - HEADER_SIZE;
      Patched(net, m, ssSend);
      var size, sum := LE4(nSize), net.checksum(ssSend[HEADER_SIZE..]);
      ssSend := ssSend[..MESSAGE_SIZE_OFFSET] + size + ssSend[CHECKSUM_OFFSET..];
      assert |ssSend| >= CHECKSUM_OFFSET + 4;
      ssSend := ssSend[..CHECKSUM_OFFSET] + sum + ssSend[HEADER_SIZE..];
      assert ssSend == Frame(net, m);
      var wasEmpty := vSendMsg == [];
      ghost var queue := vSendMsg;
      Queued(net, sent, m, wire, vSendMsg, nSendOffset, ssSend);
      TotalAppend(vSendMsg, ssSend);
      vSendMsg := vSendMsg + [ssSend];
      nSendSize := nSendSize + |ssSend|;
      sent := sent + [m];
      ssSend := [];
      if wasEmpty { SocketSendData(); }
    }
  }

  lemma Queued(net: Net, sent: seq<Message>, m: Message, wire: seq<byte>, queue: seq<seq<byte>>, offset: nat, f: seq<byte>)
    requires net.Valid() && (forall x <- sent :: |x.payload| <= MAX_SIZE) && |m.payload| <= MAX_SIZE && f == Frame(net, m)
    requires if queue == [] then offset == 0 else offset <= |queue[0]|
    requires wire + Unsent(queue, offset) == Flat(AllFrames(net, sent))
    ensures wire + Unsent(queue + [f], offset) == Flat(AllFrames(net, sent + [m]))
  {
    hide Frame, AllFrames, Flat;
    assert AllFrames(net, sent + [m]) == AllFrames(net, sent) + [f];
    FlatAppend(AllFrames(net, sent), [f]);
    FlatOne(f);
    UnsentMore(queue, offset, f);
    assert wire + (Unsent(queue, offset) + f) == (wire + Unsent(queue, offset)) + f;
  }

  lemma UnsentMore(queue: seq<seq<byte>>, offset: nat, f: seq<byte>)
    requires if queue == [] then offset == 0 else offset <= |queue[0]|
    ensures Unsent(queue + [f], offset) == Unsent(queue, offset) + f
  {
    if queue == [] {
      assert (queue + [f])[1..] == [] && (queue + [f])[0][0..] == f;
    } else {
      assert (queue + [f])[1..] == queue[1..] + [f];
      FlatAppend(queue[1..], [f]);
      FlatOne(f);
    }
  }

  // ----- the receiving end

  class CNetMessage {
    var in_data: bool
    var hdrbuf: seq<byte>
    var nMessageSize: nat
    var nHdrPos: nat
    var vRecv: seq<byte>
    var nDataPos: nat

    ghost predicate Valid()
      reads this
    {
      && |hdrbuf| == HEADER_SIZE
      && if in_data then
           && nHdrPos == HEADER_SIZE && nMessageSize == SizeField(hdrbuf) <= MAX_SIZE
           && nDataPos <= nMessageSize == |vRecv|
         else nHdrPos < HEADER_SIZE && nDataPos == 0 && vRecv == []
    }

    /** The bytes absorbed so far. */
    ghost function Bytes(): seq<byte>
      reads this
      requires Valid()
    {
      hdrbuf[..nHdrPos] + vRecv[..nDataPos]
    }

    predicate Complete()
      reads this
    {
      in_data && nMessageSize == nDataPos
    }

    constructor ()
      ensures Valid() && Bytes() == [] && !in_data
    {
      in_data, nMessageSize, nHdrPos, nDataPos := false, 0, 0, 0;
      hdrbuf := seq(HEADER_SIZE, _ => 0);
      vRecv := [];
    }

    lemma Kind()
      requires Valid()
      ensures Complete() <==> Whole(Bytes())
      ensures !Complete() && Bytes() != [] ==> Partial(Bytes())
    {
      if in_data {
        assert Bytes() == hdrbuf + vRecv[..nDataPos];
      }
    }

    method ReadHeader(pch: seq<byte>) returns (handled: int)
      requires Valid() && !in_data && pch != []
      modifies this
      ensures handled < 0 ==> exists n :: 0 < n <= |pch| && Oversize(old(Bytes()) + pch[..n])
      ensures handled >= 0 ==> Valid() && 0 < handled <= |pch| && Bytes() == old(Bytes()) + pch[..handled]
    {
      ghost var was := Bytes();
      var nRemaining := HEADER_SIZE - nHdrPos;
      var nCopy := if nRemaining < |pch| then nRemaining else |pch|;
      hdrbuf := hdrbuf[..nHdrPos] + pch[..nCopy] + hdrbuf[nHdrPos + nCopy..];
      nHdrPos := nHdrPos + nCopy;
      assert hdrbuf[..nHdrPos] == was + pch[..nCopy];
      if nHdrPos < HEADER_SIZE { return nCopy; }
      assert hdrbuf == was + pch[..nCopy];
      nMessageSize := SizeField(hdrbuf);
      if nMessageSize > MAX_SIZE { return -1; }
      in_data := true;
      vRecv := seq(nMessageSize, _ => 0);
      return nCopy;
    }

    method ReadData(pch: seq<byte>) returns (handled: int)
      requires Valid() && in_data && !Complete() && pch != []
      modifies this
      ensures Valid() && 0 < handled <= |pch| && Bytes() == old(Bytes()) + pch[..handled]
    {
      var nRemaining := nMessageSize - nDataPos;
      var nCopy := if nRemaining < |pch| then nRemaining else |pch|;
      vRecv := vRecv[..nDataPos] + pch[..nCopy] + vRecv[nDataPos + nCopy..];
      nDataPos := nDataPos + nCopy;
      assert vRecv[..nDataPos] == old(vRecv[..nDataPos]) + pch[..nCopy];
      return nCopy;
    }
  }

  /** The list of messages without its unfinished last one. */
  ghost predicate Cut(done: seq<seq<byte>>, cur: seq<byte>, view: seq<seq<byte>>) {
    if cur == [] then view == done else view == done + [cur]
  }

  lemma FlatCut(done: seq<seq<byte>>, cur: seq<byte>, view: seq<seq<byte>>)
    requires Cut(done, cur, view)
    ensures Flat(view) == Flat(done) + cur
  {
    FlatAppend(done, [cur]);
    FlatOne(cur);
  }

  lemma FailRejected(done: seq<seq<byte>>, cur: seq<byte>, pch: seq<byte>, n: nat, view: seq<seq<byte>>)
    requires Cut(done, cur, view) && (forall i :: 0 <= i < |done| ==> Whole(done[i])) && n <= |pch| && Oversize(cur + pch[..n])
    ensures Rejected(Flat(view) + pch)
  {
    hide Rejected, Oversize, Whole;
    FlatCut(done, cur, view);
    RejectedBehind(done, cur + pch[..n], pch[n..]);
    assert pch == pch[..n] + pch[n..];
    assert Flat(view) + pch == Flat(done) + (cur + pch[..n]) + pch[n..];
  }

  lemma Grown(done: seq<seq<byte>>, cur: seq<byte>, more: seq<byte>, view: seq<seq<byte>>)
    requires Cut(done, cur, view)
    ensures Flat(done + [cur + more]) == Flat(view) + more
  {
    FlatCut(done, cur, view);
    FlatAppend(done, [cur + more]);
    FlatOne(cur + more);
  }

  class Receiver {
    var vRecvMsg: seq<CNetMessage>
    /** The bytes of each message, and of the whole stream. */
    ghost var view: seq<seq<byte>>

    ghost predicate Valid()
      reads this, vRecvMsg
    {
      && |view| == |vRecvMsg|
      && (forall i, j :: 0 <= i < j < |vRecvMsg| ==> vRecvMsg[i] != vRecvMsg[j])
      && (forall i :: 0 <= i < |vRecvMsg| ==> vRecvMsg[i].Valid() && vRecvMsg[i].Bytes() == view[i] != [])
      && forall i :: 0 <= i < |vRecvMsg| - 1 ==> vRecvMsg[i].Complete()
    }

    lemma ViewFramed()
      requires Valid()
      ensures Framed(view) && Split(Flat(view)) == view && !Rejected(Flat(view))
    {
      forall i | 0 <= i < |view| ensures Whole(view[i]) || (i == |view| - 1 && Partial(view[i])) { vRecvMsg[i].Kind(); }
      SplitFramed(view);
    }

    constructor ()
      ensures Valid() && view == []
    {
      vRecvMsg, view := [], [];
    }

    /** All messages but the last are complete, with the bytes `done`; the last has absorbed `cur` and is not. */
    ghost predicate Open(done: seq<seq<byte>>, cur: seq<byte>)
      reads this, vRecvMsg
    {
      && |vRecvMsg| == |done| + 1
      && (forall i, j :: 0 <= i < j < |vRecvMsg| ==> vRecvMsg[i] != vRecvMsg[j])
      && (forall i :: 0 <= i < |done| ==> vRecvMsg[i].Valid() && vRecvMsg[i].Bytes() == done[i] != [] && vRecvMsg[i].Complete())
      && vRecvMsg[|done|].Valid() && vRecvMsg[|done|].Bytes() == cur && !vRecvMsg[|done|].Complete()
    }

    lemma DoneWhole(done: seq<seq<byte>>, cur: seq<byte>)
      requires Open(done, cur)
      ensures forall i :: 0 <= i < |done| ==> Whole(done[i])
    {
      forall i | 0 <= i < |done| ensures Whole(done[i]) { vRecvMsg[i].Kind(); }
    }

    /** The current incomplete message, or a new one. */
    method Current() returns (ghost done: seq<seq<byte>>, ghost cur: seq<byte>)
      requires Valid()
      modifies this`vRecvMsg
      ensures Open(done, cur) && Cut(done, cur, view)
      ensures forall i :: 0 <= i < |vRecvMsg| ==> vRecvMsg[i] in old(vRecvMsg) || fresh(vRecvMsg[i])
    {
      hide CNetMessage.Bytes, CNetMessage.Valid;
      done, cur := view, [];
      var n := |vRecvMsg|;
      if n == 0 || vRecvMsg[n - 1].Complete() {
        var msg := new CNetMessage();
        vRecvMsg := vRecvMsg + [msg];
      } else {
        done, cur := view[..n - 1], view[n - 1];
        assert view == done + [cur];
      }
    }

    /** One step of the parser: the current message takes its share of the bytes. */
    method Absorb(pch: seq<byte>) returns (handled: int)
      requires Valid() && pch != []
      modifies this, vRecvMsg
      ensures handled < 0 ==> Rejected(Flat(old(view)) + pch)
      ensures handled >= 0 ==> Valid() && 0 < handled <= |pch| && Flat(view) == Flat(old(view)) + pch[..handled]
      ensures forall i :: 0 <= i < |vRecvMsg| ==> vRecvMsg[i] in old(vRecvMsg) || fresh(vRecvMsg[i])
    {
      hide Flat, Rejected, Whole, Partial, Oversize, SizeField, CNetMessage.Bytes, CNetMessage.Valid;
      ghost var done, cur := Current();
      DoneWhole(done, cur);
      var msg := vRecvMsg[|vRecvMsg| - 1];
      if !msg.in_data {
        handled := msg.ReadHeader(pch);
      } else {
        handled := msg.ReadData(pch);
      }
      if handled < 0 {
        ghost var len :| 0 < len <= |pch| && Oversize(cur + pch[..len]);
        FailRejected(done, cur, pch, len, view);
      } else {
        Grown(done, cur, pch[..handled], view);
        view := done + [cur + pch[..handled]];
      }
    }

    /** Absorbs a chunk of any size. What has been parsed depends on the stream only, not on how it was cut
        into chunks; it fails exactly when the stream announces a message beyond the limit. */
    method ReceiveMsgBytes(pch0: seq<byte>) returns (ok: bool)
      requires Valid()
      modifies this, vRecvMsg
      ensures ok ==> Valid() && view == Split(Flat(old(view)) + pch0)
      ensures ok <==> !Rejected(Flat(old(view)) + pch0)
      ensures forall i :: 0 <= i < |vRecvMsg| ==> vRecvMsg[i] in old(vRecvMsg) || fresh(vRecvMsg[i])
    {
      hide Flat, Framed, Split, Rejected;
      var pch := pch0;
      ghost var stream := Flat(view) + pch0;
      while |pch| > 0
        invariant Valid() && Flat(view) + pch == stream
        invariant forall i :: 0 <= i < |vRecvMsg| ==> vRecvMsg[i] in old(vRecvMsg) || fresh(vRecvMsg[i])
        decreases |pch|
      {
        var handled := Absorb(pch);
        if handled < 0 { return false; }
        pch := pch[handled..];
      }
      assert Flat(view) + pch == Flat(view);
      ViewFramed();
      return true;
    }
  }

  /** End to end. When what has arrived is a prefix of what the other side's socket has taken, however the sends
      and the chunks were cut, the payloads received are those of the first messages sent, in order,
      with at most one message incomplete. */
  lemma EndToEnd(q: SendQueue, r: Receiver) returns (k: nat)
    requires q.Valid() && r.Valid() && Flat(r.view) <= q.wire
    ensures k <= |q.sent| && (|r.vRecvMsg| == k || |r.vRecvMsg| == k + 1)
    ensures forall i :: 0 <= i < k ==>
      && r.vRecvMsg[i].Complete() && r.vRecvMsg[i].vRecv == q.sent[i].payload
      && r.vRecvMsg[i].hdrbuf[4..16] == Command(q.sent[i].command)
      && r.vRecvMsg[i].hdrbuf[20..24] == q.net.checksum(q.sent[i].payload)
      && (|q.sent[i].command| <= 12 && 0 !in q.sent[i].command ==> GetCommand(r.vRecvMsg[i].hdrbuf[4..16]) == q.sent[i].command)
    ensures |r.vRecvMsg| == k + 1 ==> k < |q.sent| && !r.vRecvMsg[k].Complete() && r.view[k] < Frame(q.net, q.sent[k])
  {
    hide Flat, AllFrames, Unsent, Frame, Split, Rejected, Command;
    r.ViewFramed();
    k := PrefixFramed(q.net, q.sent, Flat(r.view));
    forall i | 0 <= i < k
      ensures r.vRecvMsg[i].Complete() && r.vRecvMsg[i].vRecv == q.sent[i].payload
      ensures r.vRecvMsg[i].hdrbuf[4..16] == Command(q.sent[i].command)
      ensures r.vRecvMsg[i].hdrbuf[20..24] == q.net.checksum(q.sent[i].payload)
      ensures GetCommand(r.vRecvMsg[i].hdrbuf[4..16]) == GetCommand(Command(q.sent[i].command))
      ensures GetCommand(Command(q.sent[i].command)) == q.sent[i].command <==> |q.sent[i].command| <= 12 && 0 !in q.sent[i].command
    {
      assert q.sent[i] in q.sent;
      CommandReadsBack(q.sent[i].command);
      Delivered(q.net, q.sent[i], r.vRecvMsg[i]);
    }
    if |r.vRecvMsg| == k + 1 {
      r.vRecvMsg[k].Kind();
    }
  }

  lemma Delivered(net: Net, m: Message, msg: CNetMessage)
    requires net.Valid() && |m.payload| <= MAX_SIZE && msg.Valid() && msg.Bytes() == Frame(net, m)
    ensures msg.Complete() && msg.vRecv == m.payload
    ensures msg.hdrbuf[4..16] == Command(m.command) && msg.hdrbuf[20..24] == net.checksum(m.payload)
  {
    FrameFields(net, m);
    FrameSize(net, m);
    msg.Kind();
    assert msg.Bytes() == msg.hdrbuf + msg.vRecv;
    assert msg.Bytes()[24..] == msg.vRecv && msg.Bytes()[4..16] == msg.hdrbuf[4..16] && msg.Bytes()[20..24] == msg.hdrbuf[20..24];
  }
}
