/** Numbers in scripts: one opcode for the smallest, a pushed signed number for all others. */
module ScriptNumber {
  import opened Wrappers
  import opened Bytes
  import opened Digits
  import opened BigNum
  import opened Script

  const OP_1: int := 0x51

  function AsBytes(s: seq<nat>): (r: seq<byte>)
    requires Below(256, s)
    ensures |r| == |s| && forall i :: 0 <= i < |s| ==> r[i] == s[i]
  {
    seq(|s|, i requires 0 <= i < |s| => s[i] as byte)
  }

  predicate Small(n: int) { n == -1 || 1 <= n <= 16 }

  /** push_int64. */
  function PushInt64(n: int): seq<byte>
    requires Small(n) || |GetVch(n)| < UINT_LIMIT
  {
    if Small(n) then [(n + (OP_1 - 1)) as byte] else Push(AsBytes(GetVch(n)))
  }

  lemma {:induction false} DigitCount(n: nat, k: nat)
    requires n < Pow(256, k)
    ensures |DigitsOf(256, n)| <= k
    decreases k
  {
    if n > 0 {
      assert k > 0;
      DivDown(n, 256);
      DigitCount(n / 256, k - 1);
    }
  }

  /** No 64-bit number takes more than nine bytes. */
  lemma WordSize(n: int)
    requires -TWO_63 <= n < TWO_63
    ensures |GetVch(n)| <= 9
  {
    WordStart(Abs(n));
    DigitCount(Abs(n), 8);
  }

  /** Whatever 64-bit number was pushed, the instruction read back means that number. */
  lemma NumberReadsBack(n: int, rest: seq<byte>)
    requires -TWO_63 <= n < TWO_63
    ensures |GetVch(n)| < UINT_LIMIT && NextOp(PushInt64(n) + rest).Some?
    ensures var op := NextOp(PushInt64(n) + rest).value;
      op.size == |PushInt64(n)| && if Small(n) then op.opcode - (OP_1 - 1) == n && op.data == [] else SetVch(op.data) == n
  {
    WordSize(n);
    if !Small(n) {
      PushReadsBack(AsBytes(GetVch(n)), rest);
      assert AsBytes(GetVch(n)) == GetVch(n);
      VchReadsBack(n);
    } else {
      assert (PushInt64(n) + rest)[0] == n + (OP_1 - 1);
    }
  }

  /** The script starts with the serialized height, as AcceptBlock demands of a coinbase. */
  predicate StartsWithHeight(script: seq<byte>, nHeight: nat) {
    && nHeight < 0x8000_0000
    && (WordSize(nHeight); PushInt64(nHeight) <= script)
  }

  lemma FirstByte(n: int)
    requires 0 <= n < TWO_63
    ensures |GetVch(n)| <= 9 && PushInt64(n) != [] && (PushInt64(n)[0] >= OP_1 <==> Small(n))
  {
    WordSize(n);
  }

  /** The first instruction of such a script means the height. */
  lemma HeightIsRead(script: seq<byte>, nHeight: nat)
    requires StartsWithHeight(script, nHeight)
    ensures NextOp(script).Some?
    ensures var op := NextOp(script).value;
      if 1 <= nHeight <= 16 then op.opcode == 0x50 + nHeight && op.data == [] else SetVch(op.data) == nHeight
  {
    hide GetVch, SetVch, PushInt64;
    WordSize(nHeight);
    NumberReadsBack(nHeight, script[|PushInt64(nHeight)|..]);
    assert script == PushInt64(nHeight) + script[|PushInt64(nHeight)|..];
  }

  /** A script starts with one height only. */
  lemma OneHeight(script: seq<byte>, a: nat, b: nat)
    requires StartsWithHeight(script, a) && StartsWithHeight(script, b)
    ensures a == b
  {
    hide GetVch, SetVch, PushInt64;
    FirstByte(a);
    FirstByte(b);
    HeightIsRead(script, a);
    HeightIsRead(script, b);
  }
}
