/** Base58 strings: any byte string, its leading zeros included, and back; with a checksum and a version. */
module Base58 {
  import opened Digits
  import opened BigNum
  import opened Wrappers

  // ----- the alphabet: digits without 0, capital letters without I and O, small letters without l

  function Char(k: nat): (c: char)
    requires k < 58
  {
    if k < 9 then '1' + k as char
    else if k < 17 then 'A' + (k - 9) as char
    else if k < 22 then 'J' + (k - 17) as char
    else if k < 33 then 'P' + (k - 22) as char
    else if k < 44 then 'a' + (k - 33) as char
    else 'm' + (k - 44) as char
  }

  /** strchr: the position of a character in the alphabet, or 58. */
  function Position(c: char): (k: nat)
    ensures k <= 58 && (k < 58 ==> Char(k) == c)
  {
    if '1' <= c <= '9' then (c - '1') as nat
    else if 'A' <= c <= 'H' then (c - 'A') as nat + 9
    else if 'J' <= c <= 'N' then (c - 'J') as nat + 17
    else if 'P' <= c <= 'Z' then (c - 'P') as nat + 22
    else if 'a' <= c <= 'k' then (c - 'a') as nat + 33
    else if 'm' <= c <= 'z' then (c - 'm') as nat + 44
    else 58
  }

  predicate Valid58(c: char) { Position(c) < 58 }

  /** The white space of the C library. */
  lemma Spaces()
    ensures forall c: char :: IsSpace(c) <==> c in {' ', '\t', '\n', '\U{000B}', '\U{000C}', '\r'}
  {}

  /** The alphabet in ascending order: the digits and letters but for 0, O, I and l. */
  lemma Alphabet()
    ensures forall j, k :: 0 <= j < k < 58 ==> Char(j) < Char(k)
    ensures forall c: char :: Valid58(c) <==> ('0' <= c <= '9' || 'A' <= c <= 'Z' || 'a' <= c <= 'z') && c !in {'0', 'O', 'I', 'l'}
  {}

  predicate IsSpace(c: char) { c == ' ' || '\t' <= c <= '\r' }

  lemma CharPosition(k: nat)
    requires k < 58
    ensures Position(Char(k)) == k && !IsSpace(Char(k))
  {}

  predicate InAlphabet(s: string) { forall i :: 0 <= i < |s| ==> Valid58(s[i]) }

  ghost predicate Bytes(b: seq<nat>) { Below(256, b) }

  /** The digits a string over the alphabet stands for. */
  function Digits58(s: string): (d: seq<nat>)
    ensures |d| == |s| && forall i :: 0 <= i < |s| ==> d[i] == Position(s[i])
  {
    seq(|s|, i requires 0 <= i < |s| => Position(s[i]))
  }

  lemma DigitsBelow(s: string)
    requires InAlphabet(s)
    ensures Below(58, Digits58(s))
  {
    hide Position;
    forall i | 0 <= i < |s| ensures Digits58(s)[i] < 58 { assert Valid58(s[i]); }
  }

  lemma SameDigits(s: string, t: string)
    requires InAlphabet(s) && InAlphabet(t) && Digits58(s) == Digits58(t)
    ensures s == t
  {
    hide Position, Char;
    assert |s| == |t|;
    forall i | 0 <= i < |s| ensures s[i] == t[i] {
      assert Digits58(s)[i] == Digits58(t)[i];
      assert Valid58(s[i]) && Valid58(t[i]);
    }
  }

  /** The string and the bytes are the same number with the same leading zeros. */
  ghost predicate Coded(b: seq<nat>, s: string) {
    InAlphabet(s) && Zeros(b) == Zeros(Digits58(s)) && Val(256, b) == Val(58, Digits58(s))
  }

  /** Coding is a one-to-one correspondence. */
  lemma CodedUnique(b: seq<nat>, s: string, c: seq<nat>, t: string)
    requires Bytes(b) && Bytes(c) && Coded(b, s) && Coded(c, t)
    ensures b == c <==> s == t
  {
    hide Val, Zeros, Digits58, InAlphabet;
    if b == c {
      DigitsBelow(s);
      DigitsBelow(t);
      ValUnique(58, Digits58(s), Digits58(t));
      SameDigits(s, t);
    }
    if s == t { ValUnique(256, b, c); }
  }

  // ----- encoding

  /** The digits of a string written back to front. */
  function Backwards(s: string): (r: string)
    ensures |r| == |s| && forall i :: 0 <= i < |s| ==> r[i] == s[|s| - 1 - i]
  {
    seq(|s|, i requires 0 <= i < |s| => s[|s| - 1 - i])
  }

  lemma OneMoreChar(str: string, k: nat)
    requires InAlphabet(Backwards(str)) && k < 58
    ensures InAlphabet(Backwards(str + [Char(k)]))
    ensures Digits58(Backwards(str + [Char(k)])) == [k] + Digits58(Backwards(str))
  {
    CharPosition(k);
    assert Backwards(str + [Char(k)]) == [Char(k)] + Backwards(str);
  }

  lemma LittleEndian(b: seq<nat>)
    requires Bytes(b)
    ensures SetVch(Reverse(b) + [0]) == Val(256, b)
  {
    hide Val, Below;
    assert Reverse(Reverse(b) + [0]) == [0] + b;
    ValDropZero(b);
    PositiveMpi([0] + b);
  }

  lemma PositiveMpi(p: seq<nat>)
    requires p != [] && p[0] < 128
    ensures FromMpi(p) == Val(256, p)
  {
    hide Val;
  }

  lemma Divided(n: nat)
    requires n > 0
    ensures 0 <= n / 58 < n && 0 <= n % 58 < 58 && DigitsOf(58, n) == DigitsOf(58, n / 58) + [n % 58]
  {}

  /** Repeated division by 58; the digits come out back to front. */
  method DivideOut(bn0: nat) returns (str: string)
    ensures InAlphabet(Backwards(str)) && Digits58(Backwards(str)) == DigitsOf(58, bn0)
  {
    hide Char, Position, InAlphabet, DigitsOf, Digits58, Backwards;
    var bn := bn0;
    str := "";
    NoDigits(bn0);
    while bn > 0
      invariant InAlphabet(Backwards(str)) && DigitsOf(58, bn0) == DigitsOf(58, bn) + Digits58(Backwards(str))
    {
      var c := bn % 58;
      Divided(bn);
      OneMoreChar(str, c);
      Regroup(DigitsOf(58, bn / 58), [c], Digits58(Backwards(str)));
      str := str + [Char(c)];
      bn := bn / 58;
    }
    assert [] + Digits58(Backwards(str)) == Digits58(Backwards(str));
  }

  lemma NoDigits(n: nat)
    ensures DigitsOf(58, 0) == [] && Backwards("") == "" && InAlphabet("") && Digits58("") == []
    ensures DigitsOf(58, n) == DigitsOf(58, n) + []
  {}

  /** One 1 for every leading zero byte, still back to front. */
  method AddOnes(b: seq<nat>, str0: string) returns (str: string)
    requires InAlphabet(Backwards(str0))
    ensures InAlphabet(Backwards(str))
    ensures Digits58(Backwards(str)) == seq(Zeros(b), _ => 0) + Digits58(Backwards(str0))
  {
    hide Char, Position, InAlphabet, Digits58, Backwards, Zeros;
    str := str0;
    var p := 0;
    while p < |b| && b[p] == 0
      invariant p <= |b| && forall i :: 0 <= i < p ==> b[i] == 0
      invariant InAlphabet(Backwards(str)) && Digits58(Backwards(str)) == seq(p, _ => 0) + Digits58(Backwards(str0))
    {
      OneMoreChar(str, 0);
      Regroup([0], seq(p, _ => 0), Digits58(Backwards(str0)));
      assert [0] + seq(p, _ => 0) == seq(p + 1, _ => 0);
      str := str + [Char(0)];
      p := p + 1;
    }
    ZerosAre(b, p);
  }

  lemma {:induction false} ZerosAre(b: seq<nat>, p: nat)
    requires p <= |b| && (forall i :: 0 <= i < p ==> b[i] == 0) && (p < |b| ==> b[p] != 0)
    ensures Zeros(b) == p
  {
    if p > 0 { ZerosAre(b[1..], p - 1); }
  }

  method EncodeBase58(b: seq<nat>) returns (s: string)
    requires Bytes(b)
    ensures Coded(b, s)
  {
    hide Val, Zeros, DigitsOf, Digits58, Backwards, InAlphabet, SetVch;
    LittleEndian(b);
    var str := DivideOut(SetVch(Reverse(b) + [0]));
    var all := AddOnes(b, str);
    s := Backwards(all);
    ValZerosInFront(58, Zeros(b), DigitsOf(58, Val(256, b)));
    ValOfDigits(58, Val(256, b));
  }

  // ----- decoding

  function TrimLeft(s: string): string { if s != "" && IsSpace(s[0]) then TrimLeft(s[1..]) else s }

  function TrimRight(s: string): string { if s != "" && IsSpace(s[|s| - 1]) then TrimRight(s[..|s| - 1]) else s }

  /** A C string without the white space around it. */
  function Core(psz: string): string { TrimRight(TrimLeft(psz)) }

  lemma {:induction false} TrimLeftIs(s: string, n: nat)
    requires n <= |s| && (forall i :: 0 <= i < n ==> IsSpace(s[i])) && (n < |s| ==> !IsSpace(s[n]))
    ensures TrimLeft(s) == s[n..]
  {
    if n > 0 {
      TrimLeftIs(s[1..], n - 1);
      assert s[1..][n - 1..] == s[n..];
    }
  }

  lemma {:induction false} TrimRightIs(s: string, n: nat)
    requires n <= |s| && (forall i :: n <= i < |s| ==> IsSpace(s[i])) && (n > 0 ==> !IsSpace(s[n - 1]))
    ensures TrimRight(s) == s[..n]
  {
    if n < |s| {
      TrimRightIs(s[..|s| - 1], n);
      assert s[..|s| - 1][..n] == s[..n];
    }
  }

  lemma {:induction false} TrimRightKeeps(s: string, q: nat)
    requires q < |s| && !IsSpace(s[q])
    ensures |TrimRight(s)| > q && forall i :: 0 <= i <= q ==> TrimRight(s)[i] == s[i]
  {
    if IsSpace(s[|s| - 1]) { TrimRightKeeps(s[..|s| - 1], q); }
  }

  lemma CoreSelf(s: string)
    requires InAlphabet(s)
    ensures Core(s) == s
  {
    if s != "" {
      assert Valid58(s[0]) && Valid58(s[|s| - 1]);
      CharPosition(Position(s[0]));
      CharPosition(Position(s[|s| - 1]));
    }
    TrimLeftIs(s, 0);
    TrimRightIs(s, |s|);
  }

  /** Reads digits up to the first character outside the alphabet; only white space may follow. */
  method ReadNumber(psz: string) returns (ok: bool, bn: nat)
    ensures ok <==> InAlphabet(TrimRight(psz))
    ensures ok ==> bn == Val(58, Digits58(TrimRight(psz)))
  {
    hide Val, Char, Position, Digits58, TrimRight, IsSpace;
    bn := 0;
    var p := 0;
    NoValue(psz);
    while p < |psz|
      invariant p <= |psz| && InAlphabet(psz[..p]) && bn == Val(58, Digits58(psz[..p]))
    {
      var k := Position(psz[p]);
      if k == 58 {
        var q := p;
        while q < |psz| && IsSpace(psz[q])
          invariant p <= q <= |psz| && forall i :: p <= i < q ==> IsSpace(psz[i])
        {
          q := q + 1;
        }
        if q < |psz| {
          TrimRightKeeps(psz, q);
          assert !Valid58(TrimRight(psz)[p]);
          return false, 0;
        }
        break;
      }
      AppendChar(psz, p);
      bn := bn * 58 + k;
      p := p + 1;
    }
    NotSpaceBefore(psz, p);
    TrimRightIs(psz, p);
    ok := true;
  }

  lemma NotSpaceBefore(psz: string, p: nat)
    requires p <= |psz| && InAlphabet(psz[..p])
    ensures p > 0 ==> !IsSpace(psz[p - 1])
  {
    if p > 0 {
      assert Valid58(psz[..p][p - 1]);
      CharPosition(Position(psz[p - 1]));
    }
  }

  lemma NoValue(psz: string)
    ensures psz[..0] == "" && Val(58, Digits58("")) == 0
  {}

  lemma AppendChar(psz: string, p: nat)
    requires p < |psz| && InAlphabet(psz[..p]) && Valid58(psz[p])
    ensures InAlphabet(psz[..p + 1])
    ensures Val(58, Digits58(psz[..p + 1])) == Val(58, Digits58(psz[..p])) * 58 + Position(psz[p])
  {
    hide Position;
    assert psz[..p + 1] == psz[..p] + [psz[p]];
    assert Digits58(psz[..p + 1])[..p] == Digits58(psz[..p]);
  }

  /** Without its sign byte the little-endian form is just the reversed digits. */
  lemma Trimmed(n: nat, v: seq<nat>)
    requires v == GetVch(n)
    ensures var r := Reverse(DigitsOf(256, n));
      if |v| >= 2 && v[|v| - 1] == 0 && v[|v| - 2] >= 0x80 then v[..|v| - 1] == r else v == r
  {
    var m := DigitsOf(256, n);
    if m != [] && m[0] >= 128 {
      assert Mpi(n) == [0] + m;
      assert v[..|v| - 1] == Reverse(m);
    }
  }

  /** The ones in front of a string, white space behind it or not. */
  lemma OnesInFront(psz: string, z: nat)
    requires InAlphabet(TrimRight(psz)) && z <= |psz|
    requires (forall i :: 0 <= i < z ==> psz[i] == Char(0)) && (z < |psz| ==> psz[z] != Char(0))
    ensures z == Zeros(Digits58(TrimRight(psz)))
  {
    var s := TrimRight(psz);
    CharPosition(0);
    if z > 0 { TrimRightKeeps(psz, z - 1); }
    TrimPrefix(psz);
    forall i | 0 <= i < |s| ensures Digits58(s)[i] == 0 <==> s[i] == Char(0) { assert Valid58(s[i]); }
    ZerosAre(Digits58(s), z);
  }

  lemma {:induction false} TrimPrefix(psz: string)
    ensures TrimRight(psz) <= psz
  {
    if psz != "" && IsSpace(psz[|psz| - 1]) { TrimPrefix(psz[..|psz| - 1]); }
  }

  lemma Decoded(z: nat, s: string, b: seq<nat>)
    requires InAlphabet(s) && z == Zeros(Digits58(s))
    requires b == seq(z, _ => 0) + DigitsOf(256, Val(58, Digits58(s)))
    ensures Bytes(b) && Coded(b, s)
  {
    hide Val, Zeros, Digits58, InAlphabet, DigitsOf;
    var n := Val(58, Digits58(s));
    ValZerosInFront(256, z, DigitsOf(256, n));
    ValOfDigits(256, n);
  }

  /** The number with its leading zeros, behind any white space; `psz0` ends where the C string does. */
  method DecodeBase58(psz0: string) returns (ok: bool, vchRet: seq<nat>)
    ensures ok <==> InAlphabet(Core(psz0))
    ensures ok ==> Bytes(vchRet) && Coded(vchRet, Core(psz0))
    ensures !ok ==> vchRet == []
  {
    hide Val, Char, Position, Digits58, TrimRight, TrimLeft, IsSpace, Zeros, DigitsOf, InAlphabet, GetVch, Reverse, Below;
    vchRet := [];
    var start := 0;
    while start < |psz0| && IsSpace(psz0[start])
      invariant start <= |psz0| && forall i :: 0 <= i < start ==> IsSpace(psz0[i])
    {
      start := start + 1;
    }
    TrimLeftIs(psz0, start);
    var psz := psz0[start..];
    var bn;
    ok, bn := ReadNumber(psz);
    if !ok { return; }
    var vchTmp := GetVch(bn);
    Trimmed(bn, vchTmp);
    if |vchTmp| >= 2 && vchTmp[|vchTmp| - 1] == 0 && vchTmp[|vchTmp| - 2] >= 0x80 {
      vchTmp := vchTmp[..|vchTmp| - 1];
    }
    ReverseTwice(DigitsOf(256, bn));
    var nLeadingZeros := 0;
    while nLeadingZeros < |psz| && psz[nLeadingZeros] == Char(0)
      invariant nLeadingZeros <= |psz| && forall i :: 0 <= i < nLeadingZeros ==> psz[i] == Char(0)
    {
      nLeadingZeros := nLeadingZeros + 1;
    }
    OnesInFront(psz, nLeadingZeros);
    vchRet := seq(nLeadingZeros, _ => 0) + Reverse(vchTmp);
    Decoded(nLeadingZeros, TrimRight(psz), vchRet);
  }

  // ----- the round trips

  /** Decoding an encoded byte string gives it back. */
  method BytesRoundTrip(b: seq<nat>) returns (ok: bool, c: seq<nat>)
    requires Bytes(b)
    ensures ok && c == b
  {
    var s := EncodeBase58(b);
    CoreSelf(s);
    ok, c := DecodeBase58(s);
    CodedUnique(b, s, c, s);
  }

  /** Encoding a decoded string gives it back, without the white space around it. */
  method StringRoundTrip(psz: string) returns (t: string)
    requires InAlphabet(Core(psz))
    ensures t == Core(psz)
  {
    var ok, b := DecodeBase58(psz);
    t := EncodeBase58(b);
    CodedUnique(b, Core(psz), b, t);
  }

  // ----- with a checksum

  /** The first four bytes of the hash. */
  type Checksum = seq<nat> -> seq<nat>

  ghost predicate ChecksumOk(sum: Checksum) { forall b :: |sum(b)| == 4 && Bytes(sum(b)) }

  /** `s` encodes b followed by its checksum. */
  ghost predicate Checked(sum: Checksum, b: seq<nat>, s: string) { Bytes(b) && Coded(b + sum(b), s) }

  lemma CheckedUnique(sum: Checksum, b: seq<nat>, c: seq<nat>, s: string)
    requires ChecksumOk(sum) && Checked(sum, b, s) && Checked(sum, c, s)
    ensures b == c
  {
    hide Coded;
    ConcatBytes(b, sum(b));
    ConcatBytes(c, sum(c));
    CodedUnique(b + sum(b), s, c + sum(c), s);
    assert b == (b + sum(b))[..|b + sum(b)| - 4] && c == (c + sum(c))[..|c + sum(c)| - 4];
  }

  lemma ConcatBytes(a: seq<nat>, b: seq<nat>)
    requires Bytes(a) && Bytes(b)
    ensures Bytes(a + b)
  {}

  method EncodeBase58Check(sum: Checksum, vchIn: seq<nat>) returns (s: string)
    requires ChecksumOk(sum) && Bytes(vchIn)
    ensures Checked(sum, vchIn, s)
  {
    ConcatBytes(vchIn, sum(vchIn));
    s := EncodeBase58(vchIn + sum(vchIn));
  }

  /** It succeeds on exactly the strings that encode something with its checksum. */
  method DecodeBase58Check(sum: Checksum, psz: string) returns (ok: bool, vchRet: seq<nat>)
    requires ChecksumOk(sum)
    ensures ok ==> Checked(sum, vchRet, Core(psz))
    ensures !ok ==> vchRet == [] && forall b :: !Checked(sum, b, Core(psz))
  {
    hide Coded, Core, InAlphabet;
    ok, vchRet := DecodeBase58(psz);
    if !ok {
      forall b ensures !Checked(sum, b, Core(psz)) { NotCoded(b + sum(b), Core(psz)); }
      return;
    }
    ghost var all := vchRet;
    forall b | Checked(sum, b, Core(psz)) ensures all == b + sum(b) {
      ConcatBytes(b, sum(b));
      CodedUnique(b + sum(b), Core(psz), all, Core(psz));
    }
    if |vchRet| < 4 { return false, []; }
    var n := |vchRet| - 4;
    SplitSum(sum, all);
    if sum(vchRet[..n]) != vchRet[n..] { return false, []; }
    vchRet := vchRet[..n];
  }

  lemma NotCoded(b: seq<nat>, s: string)
    requires !InAlphabet(s)
    ensures !Coded(b, s)
  {}

  lemma SplitSum(sum: Checksum, all: seq<nat>)
    requires ChecksumOk(sum) && Bytes(all) && |all| >= 4
    ensures Bytes(all[..|all| - 4]) && all == all[..|all| - 4] + all[|all| - 4..]
    ensures forall b :: all == b + sum(b) ==> b == all[..|all| - 4] && sum(b) == all[|all| - 4..]
  {}

  class CBase58Data {
    var nVersion: nat
    var vchData: seq<nat>

    ghost predicate Valid()
      reads this
    {
      nVersion < 256 && Bytes(vchData)
    }

    constructor ()
      ensures Valid()
    {
      nVersion, vchData := 0, [];
    }

    method SetString(sum: Checksum, psz: string) returns (ok: bool)
      requires ChecksumOk(sum)
      modifies this
      ensures Valid()
      ensures ok ==> Checked(sum, [nVersion] + vchData, Core(psz))
      ensures !ok ==> nVersion == 0 && vchData == [] && forall b :: Checked(sum, b, Core(psz)) ==> b == []
    {
      hide Coded, Core, InAlphabet;
      var decoded, vchTemp := DecodeBase58Check(sum, psz);
      if decoded {
        forall b | Checked(sum, b, Core(psz)) ensures b == vchTemp { CheckedUnique(sum, b, vchTemp, Core(psz)); }
      }
      if vchTemp == [] {
        vchData, nVersion := [], 0;
        return false;
      }
      nVersion := vchTemp[0];
      vchData := vchTemp[1..];
      assert vchTemp == [nVersion] + vchData;
      return true;
    }

    method ToString(sum: Checksum) returns (s: string)
      requires ChecksumOk(sum) && Valid()
      ensures Checked(sum, [nVersion] + vchData, s)
    {
      s := EncodeBase58Check(sum, [nVersion] + vchData);
    }
  }

  /** A versioned string read back is the same version and data. */
  method DataRoundTrip(sum: Checksum, x: CBase58Data, y: CBase58Data) returns (ok: bool)
    requires ChecksumOk(sum) && x.Valid() && x != y
    modifies y
    ensures ok && y.nVersion == x.nVersion && y.vchData == x.vchData
  {
    hide Coded, Core, InAlphabet;
    var s := x.ToString(sum);
    ghost var b := [x.nVersion] + x.vchData;
    CheckedCore(sum, b, s);
    ok := y.SetString(sum, s);
    if ok {
      CheckedUnique(sum, b, [y.nVersion] + y.vchData, s);
      assert b[1..] == x.vchData && ([y.nVersion] + y.vchData)[1..] == y.vchData;
    }
  }

  lemma CheckedCore(sum: Checksum, b: seq<nat>, s: string)
    requires Checked(sum, b, s)
    ensures Core(s) == s
  {
    CoreSelf(s);
  }
}
