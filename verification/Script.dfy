/** Scripts as byte strings: writing pushes, reading them back, and deleting a pattern. */
module Script {
  import opened Wrappers
  import opened Bytes

  const OP_PUSHDATA1: byte := 0x4c
  const OP_PUSHDATA2: byte := 0x4d
  const OP_PUSHDATA4: byte := 0x4e
  const OP_INVALIDOPCODE: byte := 0xff

  /** An instruction: its opcode, the bytes it pushes, and how many bytes of the script it takes. */
  datatype Op = Op(opcode: byte, data: seq<byte>, size: nat)

  /** An immediate operand of n bytes behind `header` bytes. */
  function Immediate(s: seq<byte>, header: nat, n: nat): Option<Op>
    requires 0 < header <= |s|
  {
    if |s| - header < n then None else Some(Op(s[0], s[header..header + n], header + n))
  }

  /** The first instruction of a script, if it is complete. */
  function NextOp(s: seq<byte>): (r: Option<Op>)
    ensures r.Some? ==> 0 < r.value.size <= |s|
  {
    if s == [] then None
    else if s[0] > 0x4e then Some(Op(s[0], [], 1))
    else if s[0] < 0x4c then Immediate(s, 1, s[0])
    else if s[0] == 0x4c then (if |s| < 2 then None else Immediate(s, 2, s[1]))
    else if s[0] == 0x4d then (if |s| < 3 then None else Immediate(s, 3, FromLE2(s[1..3])))
    else (if |s| < 5 then None else Immediate(s, 5, FromLE4(s[1..5])))
  }

  /** An instruction is read from its own bytes only. */
  lemma OpLocal(s: seq<byte>, t: seq<byte>)
    requires NextOp(s).Some? && s[..NextOp(s).value.size] <= t
    ensures NextOp(t) == NextOp(s)
  {
    var n := NextOp(s).value.size;
    assert forall i :: 0 <= i < n ==> t[i] == s[i];
    if s[0] == OP_PUSHDATA2 { assert t[1..3] == s[1..3]; }
    if s[0] == OP_PUSHDATA4 { assert t[1..5] == s[1..5]; }
    var header := n - |NextOp(s).value.data|;
    assert t[header..n] == s[header..n];
  }

  lemma TailSlice(script: seq<byte>, pc: nat, a: nat, b: nat)
    requires a <= b && pc + b <= |script|
    ensures script[pc + a..pc + b] == script[pc..][a..b]
  {}

  method GetOp2(script: seq<byte>, pc0: nat) returns (ok: bool, pc: nat, opcode: byte, vch: seq<byte>)
    requires pc0 <= |script|
    ensures ok <==> NextOp(script[pc0..]).Some?
    ensures pc0 <= pc <= |script|
    ensures ok ==> var op := NextOp(script[pc0..]).value; pc == pc0 + op.size && opcode == op.opcode && vch == op.data
    ensures !ok ==> opcode == OP_INVALIDOPCODE && vch == []
  {
    ok, pc, opcode, vch := false, pc0, OP_INVALIDOPCODE, [];
    if pc >= |script| { return; }
    hide FromLE2, FromLE4;
    assert script[pc0..][0] == script[pc0];
    var op := script[pc];
    pc := pc + 1;
    if op <= OP_PUSHDATA4 {
      var nSize: nat := 0;
      if op < OP_PUSHDATA1 {
        nSize := op;
      } else if op == OP_PUSHDATA1 {
        if |script| - pc < 1 { return; }
        nSize := script[pc];
        pc := pc + 1;
      } else if op == OP_PUSHDATA2 {
        if |script| - pc < 2 { return; }
        TailSlice(script, pc0, 1, 3);
        nSize := FromLE2(script[pc..pc + 2]);
        pc := pc + 2;
      } else {
        if |script| - pc < 4 { return; }
        TailSlice(script, pc0, 1, 5);
        nSize := FromLE4(script[pc..pc + 4]);
        pc := pc + 4;
      }
      if |script| - pc < nSize { return; }
      TailSlice(script, pc0, pc - pc0, pc - pc0 + nSize);
      vch := script[pc..pc + nSize];
      pc := pc + nSize;
    }
    return true, pc, op, vch;
  }

  // ----- writing

  /** operator<< of a byte vector: the shortest of four length encodings, then the bytes. */
  function Push(b: seq<byte>): seq<byte>
    requires |b| < UINT_LIMIT
  {
    (if |b| < OP_PUSHDATA1 then [|b| as byte]
     else if |b| <= 0xff then [OP_PUSHDATA1, |b| as byte]
     else if |b| <= 0xffff then [OP_PUSHDATA2] + LE2(|b|)
     else [OP_PUSHDATA4] + LE4(|b|)) + b
  }

  datatype Item = Data(b: seq<byte>) | Code(opcode: byte) {
    predicate Valid() { if Data? then |b| < UINT_LIMIT else opcode > OP_PUSHDATA4 }

    function Bytes(): seq<byte>
      requires Valid()
    {
      if Data? then Push(b) else [opcode]
    }
  }

  function Build(items: seq<Item>): seq<byte>
    requires forall x <- items :: x.Valid()
  {
    if items == [] then [] else items[0].Bytes() + Build(items[1..])
  }

  function Parse(s: seq<byte>): seq<Op>
    decreases |s|
  {
    match NextOp(s)
    case None => []
    case Some(op) => [op] + Parse(s[op.size..])
  }

  lemma PushReadsBack(b: seq<byte>, rest: seq<byte>)
    requires |b| < UINT_LIMIT
    ensures NextOp(Push(b) + rest).Some?
    ensures var op := NextOp(Push(b) + rest).value; op.data == b && op.size == |Push(b)| && op.opcode <= OP_PUSHDATA4
    ensures |Push(b)| == |b| + if |b| <= 75 then 1 else if |b| <= 255 then 2 else if |b| <= 65_535 then 3 else 5
  {
    var s := Push(b) + rest;
    if |b| > 0xffff {
      assert s[1..5] == LE4(|b|);
      LE4Inverse(|b|);
    } else if |b| > 0xff {
      assert s[1..3] == LE2(|b|);
    }
    assert s[|Push(b)| - |b|..|Push(b)|] == b;
  }

  /** What was written is read back: the same pushes and opcodes, nothing more. */
  lemma {:induction false} BuildParses(items: seq<Item>)
    requires forall x <- items :: x.Valid()
    ensures |Parse(Build(items))| == |items|
    ensures forall i :: 0 <= i < |items| ==>
      var op := Parse(Build(items))[i];
      match items[i] case Data(b) => op.data == b && op.opcode <= OP_PUSHDATA4 case Code(c) => op.opcode == c && op.data == []
  {
    if items != [] {
      assert items[0] in items && forall x <- items[1..] :: x in items;
      var first, rest := items[0], Build(items[1..]);
      BuildParses(items[1..]);
      if first.Data? { PushReadsBack(first.b, rest); }
      var op := NextOp(Build(items)).value;
      assert op.size == |first.Bytes()|;
      assert Build(items)[op.size..] == rest;
    }
  }

  // ----- deleting

  /** The script without the copies of b it starts with. */
  function Strip(s: seq<byte>, b: seq<byte>): (r: seq<byte>)
    requires b != []
    ensures |r| <= |s| && !(b <= r)
    decreases |s|
  {
    if b <= s then Strip(s[|b|..], b) else s
  }

  /** What is left when b is deleted wherever an instruction starts. */
  function Without(s: seq<byte>, b: seq<byte>): (r: seq<byte>)
    requires b != []
    decreases |s|
  {
    var t := Strip(s, b);
    match NextOp(t)
    case None => t
    case Some(op) => t[..op.size] + Without(t[op.size..], b)
  }

  function Copies(s: seq<byte>, b: seq<byte>): nat
    requires b != []
    decreases |s|
  {
    if b <= s then 1 + Copies(s[|b|..], b) else 0
  }

  function Found(s: seq<byte>, b: seq<byte>): nat
    requires b != []
    decreases |s|
  {
    var t := Strip(s, b);
    Copies(s, b) + match NextOp(t) case None => 0 case Some(op) => Found(t[op.size..], b)
  }

  /** Erases the copies of b at pc. */
  method DeleteHere(script0: seq<byte>, pc: nat, b: seq<byte>) returns (n: nat, script: seq<byte>)
    requires b != [] && pc <= |script0|
    ensures script == script0[..pc] + Strip(script0[pc..], b) && n == Copies(script0[pc..], b)
  {
    n, script := 0, script0;
    while |script| - pc >= |b| && script[pc..pc + |b|] == b
      invariant pc <= |script| && script[..pc] == script0[..pc]
      invariant Strip(script0[pc..], b) == Strip(script[pc..], b)
      invariant n + Copies(script[pc..], b) == Copies(script0[pc..], b)
      decreases |script|
    {
      assert script[pc..][|b|..] == script[pc + |b|..];
      script := script[..pc] + script[pc + |b|..];
      n := n + 1;
    }
    assert script == script[..pc] + script[pc..];
  }

  method FindAndDelete(script0: seq<byte>, b: seq<byte>) returns (nFound: nat, script: seq<byte>)
    ensures b == [] ==> nFound == 0 && script == script0
    ensures b != [] ==> script == Without(script0, b) && nFound == Found(script0, b)
  {
    hide NextOp, Without, Found, Strip, Copies;
    nFound, script := 0, script0;
    if b == [] { return; }
    var pc := 0;
    assert script[pc..] == script0;
    var more := true;
    while more
      invariant pc <= |script|
      invariant more ==> Without(script0, b) == script[..pc] + Without(script[pc..], b)
      invariant more ==> Found(script0, b) == nFound + Found(script[pc..], b)
      invariant !more ==> script == Without(script0, b) && nFound == Found(script0, b)
      decreases more, |script| - pc
    {
      WithoutStep(script[pc..], b);
      var n, stripped := DeleteHere(script, pc, b);
      ghost var head, rest := script[..pc], Strip(script[pc..], b);
      nFound, script := nFound + n, stripped;
      assert script[..pc] == head && script[pc..] == rest;
      var next, opcode, vch;
      more, next, opcode, vch := GetOp2(script, pc);
      if more {
        assert rest[next - pc..] == script[next..] && script[..next] == head + rest[..next - pc];
        Regroup(head, rest[..next - pc], Without(script[next..], b));
        pc := next;
      }
    }
  }

  lemma WithoutStep(s: seq<byte>, b: seq<byte>)
    requires b != []
    ensures var t := Strip(s, b);
      match NextOp(t)
      case None => Without(s, b) == t && Found(s, b) == Copies(s, b)
      case Some(op) => Without(s, b) == t[..op.size] + Without(t[op.size..], b) && Found(s, b) == Copies(s, b) + Found(t[op.size..], b)
  {}

  /** Nothing but the copies counted is gone. */
  lemma {:induction false} SizeKept(s: seq<byte>, b: seq<byte>)
    requires b != []
    ensures |Without(s, b)| + Found(s, b) * |b| == |s|
    decreases |s|
  {
    hide NextOp, Strip, Copies, Without, Found;
    CopiesSize(s, b);
    WithoutStep(s, b);
    var t := Strip(s, b);
    match NextOp(t) {
      case None =>
      case Some(op) =>
        SizeKept(t[op.size..], b);
    }
  }

  lemma {:induction false} CopiesSize(s: seq<byte>, b: seq<byte>)
    requires b != []
    ensures |Strip(s, b)| + Copies(s, b) * |b| == |s|
    decreases |s|
  {
    if b <= s {
      CopiesSize(s[|b|..], b);
    }
  }

  /** No instruction of the script starts where b occurs. */
  predicate Clean(s: seq<byte>, b: seq<byte>)
    requires b != []
    decreases |s|
  {
    !(b <= s) && match NextOp(s) case None => true case Some(op) => Clean(s[op.size..], b)
  }

  /** Deleting from a script finds nothing exactly when it is clean. */
  lemma {:induction false} CleanIsFixed(s: seq<byte>, b: seq<byte>)
    requires b != []
    ensures Clean(s, b) <==> Without(s, b) == s && Found(s, b) == 0
    decreases |s|
  {
    SizeKept(s, b);
    if !(b <= s) {
      match NextOp(s) {
        case None =>
        case Some(op) =>
          CleanIsFixed(s[op.size..], b);
          SizeKept(s[op.size..], b);
          assert s == s[..op.size] + s[op.size..];
          if Without(s, b) == s { assert Without(s[op.size..], b) == Without(s, b)[op.size..]; }
      }
    } else {
      assert Copies(s, b) >= 1;
    }
  }

  /** b may follow its own first instruction: that is, b without it is again a start of b. */
  predicate FollowsItself(b: seq<byte>) {
    match NextOp(b)
    case None => true
    case Some(op) => b <= b[..op.size] + b
  }

  lemma NotThere(w: seq<byte>, b: seq<byte>)
    requires b != [] && !(b <= w)
    ensures Strip(w, b) == w && Copies(w, b) == 0
  {}

  /** For such b a start of b can only be left where it was before. */
  lemma {:induction false} StartWasThere(b: seq<byte>, w: seq<byte>, y: seq<byte>)
    requires b != [] && FollowsItself(b) && y <= b && y <= Without(w, b)
    ensures y <= w
    decreases |w|
  {
    hide NextOp, Without, Strip;
    if b <= w {
      assert y == b[..|y|] == w[..|y|];
    } else {
      NotThere(w, b);
      WithoutStep(w, b);
      if NextOp(w).Some? {
        var n := NextOp(w).value.size;
        var x, v := w[..n], Without(w[n..], b);
        if |y| > n {
          assert x == b[..n] by { assert b[..n] == b[..|y|][..n]; }
          OpLocal(w, b);
          StartWasThere(b, w[n..], y[n..]);
          assert w == x + w[n..] && y == x + y[n..];
        }
      }
    }
  }

  lemma {:induction false} WithoutClean(s: seq<byte>, b: seq<byte>)
    requires b != [] && FollowsItself(b)
    ensures Clean(Without(s, b), b)
    decreases |s|
  {
    hide NextOp, Without, Strip, FollowsItself;
    var t := Strip(s, b);
    NotThere(t, b);
    WithoutStep(s, b);
    WithoutStep(t, b);
    assert !(b <= Without(s, b)) by {
      if b <= Without(t, b) {
        StartWasThere(b, t, b);
        assert false;
      }
    }
    match NextOp(t) {
      case None =>
      case Some(op) =>
        var v := Without(t[op.size..], b);
        WithoutClean(t[op.size..], b);
        OpLocal(t, t[..op.size] + v);
        assert (t[..op.size] + v)[op.size..] == v;
    }
  }

  lemma {:induction false} ShortStays(s: seq<byte>, b: seq<byte>)
    requires |s| < |b|
    ensures Without(s, b) == s
    decreases |s|
  {
    match NextOp(s) {
      case None =>
      case Some(op) => ShortStays(s[op.size..], b);
    }
  }

  /** For any other b there is a script that still starts with b after the deletion. */
  lemma Uncovered(b: seq<byte>) returns (s: seq<byte>)
    requires b != [] && !FollowsItself(b)
    ensures Without(s, b) == b && !Clean(Without(s, b), b)
  {
    hide NextOp, Without, Strip, Clean;
    var n := NextOp(b).value.size;
    var x, y := b[..n], b[n..];
    s := x + b + y;
    NotThere(s, b);
    OpLocal(b, s) by { assert s == x + (b + y); }
    assert s[n..] == b + y && s[..n] == x;
    WithoutStep(s, b);
    StripOne(b, y);
    WithoutStep(b + y, b);
    WithoutStep(y, b);
    ShortStays(y, b);
    assert b == x + y;
    NeverClean(b);
  }

  lemma StripOne(b: seq<byte>, y: seq<byte>)
    requires b != [] && |y| < |b|
    ensures Strip(b + y, b) == y == Strip(y, b)
  {}

  lemma NeverClean(b: seq<byte>)
    requires b != []
    ensures !Clean(b, b)
  {}

  /** The result is clean, and deleting again changes nothing, for all scripts exactly when b follows itself.
      Single pushes and single opcodes do; a sequence of different instructions does not. */
  lemma CleanExactly(b: seq<byte>)
    requires b != []
    ensures (forall s :: Clean(Without(s, b), b)) <==> FollowsItself(b)
    ensures (forall s :: Without(Without(s, b), b) == Without(s, b)) <==> FollowsItself(b)
  {
    if FollowsItself(b) {
      forall s ensures Clean(Without(s, b), b) && Without(Without(s, b), b) == Without(s, b) {
        WithoutClean(s, b);
        CleanIsFixed(Without(s, b), b);
      }
    } else {
      var s := Uncovered(b);
      CleanIsFixed(b, b);
      SizeKept(b, b);
    }
  }

  /** The patterns the interpreter deletes are single instructions. */
  lemma SingleFollows(b: seq<byte>)
    requires NextOp(b).Some? && NextOp(b).value.size == |b|
    ensures FollowsItself(b)
  {
    assert b[..|b|] == b;
  }

  /** Two different opcodes, deleted from between themselves, meet again. */
  lemma MeetAgain()
    ensures Without([0xac, 0xac, 0xad, 0xad], [0xac, 0xad]) == [0xac, 0xad]
  {
    var b: seq<byte> := [0xac, 0xad];
    assert NextOp(b) == Some(Op(0xac, [], 1));
    assert b[..1] + b == [0xac, 0xac, 0xad];
    assert !FollowsItself(b) by { assert (b[..1] + b)[1] != b[1]; }
    var s: seq<byte> := [0xac, 0xac, 0xad, 0xad];
    assert s[1..] == [0xac, 0xad, 0xad] && s[1..][2..] == [0xad];
    assert !(b <= s) by { assert s[1] != b[1]; }
    ShortStays([0xad], b);
    assert b <= s[1..];
    assert Strip(s[1..], b) == [0xad];
    assert Without(s[1..], b) == Without([0xad], b);
    assert s[..1] == [0xac];
  }
}
