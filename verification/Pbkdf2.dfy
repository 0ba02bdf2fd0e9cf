/** Key derivation: PBKDF2 with HMAC-SHA-256, whose first HMAC state is computed once and reused,
    against section 5.2 of RFC 8018 and section 2 of RFC 2104. */
module Pbkdf2 {
  import opened Arith

  type Octets = seq<bv8>

  /** SHA-256 as any function to 32 octets. */
  type Sha = Octets -> Octets

  ghost predicate ShaOk(sha: Sha) { forall s :: |sha(s)| == 32 }

  // ----- the standards

  function Zeros(n: nat): (z: Octets)
    ensures |z| == n
  {
    seq(n, _ => 0)
  }

  /** Every octet combined with the same one. */
  function XorAll(s: Octets, b: bv8): (r: Octets)
    ensures |r| == |s|
  {
    seq(|s|, i requires 0 <= i < |s| => s[i] ^ b)
  }

  function Xor(s: Octets, t: Octets): (r: Octets)
    requires |s| == |t|
    ensures |r| == |s|
  {
    seq(|s|, i requires 0 <= i < |s| => s[i] ^ t[i])
  }

  /** The key, hashed if it is longer than a block, filled up with zeros. */
  ghost function Key(sha: Sha, key: Octets): (k: Octets)
    requires ShaOk(sha)
    ensures |k| == 64
  {
    var short := if |key| > 64 then sha(key) else key;
    short + Zeros(64 - |short|)
  }

  /** H(K xor opad, H(K xor ipad, text)). */
  ghost function Hmac(sha: Sha, key: Octets, text: Octets): (r: Octets)
    requires ShaOk(sha)
    ensures |r| == 32
  {
    var k := Key(sha, key);
    sha(XorAll(k, 0x5c) + sha(XorAll(k, 0x36) + text))
  }

  /** The four digits of i to the base 256, the first one most significant. */
  function Digits4(i: nat): (d: seq<nat>)
    requires i < 0x1_0000_0000
    ensures |d| == 4 && (forall k :: 0 <= k < 4 ==> d[k] < 256)
    ensures i == 0x100_0000 * d[0] + 0x1_0000 * d[1] + 0x100 * d[2] + d[3]
  {
    var a, b := i / 0x100, i / 0x1_0000;
    assert a / 0x100 == b && b / 0x100 == i / 0x100_0000;
    [b / 0x100, b % 0x100, a % 0x100, i % 0x100]
  }

  /** The four-octet encoding of i, most significant octet first. */
  function Int4(i: nat): (r: Octets)
    requires i < 0x1_0000_0000
    ensures |r| == 4
  {
    var d := Digits4(i);
    seq(4, k requires 0 <= k < 4 => d[k] as bv8)
  }

  ghost function U(sha: Sha, p: Octets, s: Octets, i: nat, j: nat): (r: Octets)
    requires ShaOk(sha) && j >= 1 && i < 0x1_0000_0000
    ensures |r| == 32
    decreases j
  {
    if j == 1 then Hmac(sha, p, s + Int4(i)) else Hmac(sha, p, U(sha, p, s, i, j - 1))
  }

  /** F(P, S, c, i): U_1 xor ... xor U_c. */
  ghost function F(sha: Sha, p: Octets, s: Octets, c: nat, i: nat): (r: Octets)
    requires ShaOk(sha) && c >= 1 && i < 0x1_0000_0000
    ensures |r| == 32
    decreases c
  {
    if c == 1 then U(sha, p, s, i, 1) else Xor(F(sha, p, s, c - 1, i), U(sha, p, s, i, c))
  }

  /** T_1 to T_n, one after the other. */
  ghost function Blocks(sha: Sha, p: Octets, s: Octets, c: nat, n: nat): (r: Octets)
    requires ShaOk(sha) && c >= 1 && n < 0x1_0000_0000
    ensures |r| == 32 * n
  {
    if n == 0 then [] else Blocks(sha, p, s, c, n - 1) + F(sha, p, s, c, n)
  }

  function BlocksFor(dkLen: nat): nat { (dkLen + 31) / 32 }

  /** The derived key. */
  ghost function Derived(sha: Sha, p: Octets, s: Octets, c: nat, dkLen: nat): (r: Octets)
    requires ShaOk(sha) && c >= 1 && dkLen <= 32 * 0xFFFF_FFFF
    ensures |r| == dkLen
  {
    Blocks(sha, p, s, c, BlocksFor(dkLen))[..dkLen]
  }

  // ----- the HMAC operation

  /** A hash in progress is the octets it has absorbed; copying the struct copies both. */
  datatype Ctx = Ctx(ictx: Octets, octx: Octets)

  method XorPad(pad: array<bv8>, key: Octets, b: bv8) returns (block: Octets)
    requires pad.Length == 64 && |key| <= 64
    modifies pad
    ensures block == XorAll(key + Zeros(64 - |key|), b)
  {
    for i := 0 to 64
      invariant forall k :: 0 <= k < i ==> pad[k] == b
    {
      pad[i] := b;
    }
    for i := 0 to |key|
      invariant forall k :: 0 <= k < i ==> pad[k] == key[k] ^ b
      invariant forall k :: i <= k < 64 ==> pad[k] == b
    {
      pad[i] := pad[i] ^ key[i];
    }
    block := pad[..];
    assert block == XorAll(key + Zeros(64 - |key|), b);
  }

  method HmacInit(sha: Sha, key: Octets) returns (ctx: Ctx)
    requires ShaOk(sha)
    ensures ctx == Ctx(XorAll(Key(sha, key), 0x36), XorAll(Key(sha, key), 0x5c))
  {
    var k := key;
    if |k| > 64 { k := sha(k); }
    var pad := new bv8[64];
    var inner := XorPad(pad, k, 0x36);
    var outer := XorPad(pad, k, 0x5c);
    ctx := Ctx(inner, outer);
  }

  function Update(ctx: Ctx, data: Octets): Ctx { ctx.(ictx := ctx.ictx + data) }

  method HmacFinal(sha: Sha, ctx: Ctx, digest: array<bv8>)
    requires ShaOk(sha) && digest.Length == 32
    modifies digest
    ensures digest[..] == sha(ctx.octx + sha(ctx.ictx))
  {
    Store(digest, 0, sha(ctx.octx + sha(ctx.ictx)));
  }

  /** memcpy into an array. */
  method Store(a: array<bv8>, at: nat, s: Octets)
    requires at + |s| <= a.Length
    modifies a
    ensures a[..] == old(a[..at]) + s + old(a[at + |s|..])
  {
    for i := 0 to |s|
      invariant forall k :: 0 <= k < a.Length ==> a[k] == if at <= k < at + i then s[k - at] else old(a[k])
    {
      a[at + i] := s[i];
    }
  }

  lemma Extends(sha: Sha, key: Octets, text: Octets, ctx: Ctx)
    requires ShaOk(sha) && ctx == Ctx(XorAll(Key(sha, key), 0x36), XorAll(Key(sha, key), 0x5c))
    ensures var d := Update(ctx, text); sha(d.octx + sha(d.ictx)) == Hmac(sha, key, text)
  {}

  lemma TwoUpdates(ctx: Ctx, a: Octets, b: Octets)
    ensures Update(Update(ctx, a), b) == Update(ctx, a + b)
  {}

  // ----- the derivation

  /** One block: the first HMAC continues the shared state, the others start afresh. */
  method Block(sha: Sha, passwd: Octets, salt: Octets, shared: Ctx, c: nat, i: nat, u: array<bv8>, t: array<bv8>)
    requires ShaOk(sha) && 1 <= i < 0x1_0000_0000 && u.Length == 32 && t.Length == 32 && u != t
    requires shared == Update(Ctx(XorAll(Key(sha, passwd), 0x36), XorAll(Key(sha, passwd), 0x5c)), salt)
    modifies u, t
    ensures t[..] == F(sha, passwd, salt, if c == 0 then 1 else c, i)
  {
    hide Key, Hmac, XorAll, Int4, Digits4;
    var hctx := Update(shared, Int4(i));
    TwoUpdates(Ctx(XorAll(Key(sha, passwd), 0x36), XorAll(Key(sha, passwd), 0x5c)), salt, Int4(i));
    Extends(sha, passwd, salt + Int4(i), Ctx(XorAll(Key(sha, passwd), 0x36), XorAll(Key(sha, passwd), 0x5c)));
    HmacFinal(sha, hctx, u);
    Store(t, 0, u[..]);
    assert t[..] == u[..];
    var j := 2;
    while j <= c
      invariant 2 <= j && (j <= c + 1 || j == 2)
      invariant u[..] == U(sha, passwd, salt, i, j - 1) && t[..] == F(sha, passwd, salt, j - 1, i)
      decreases c + 1 - j
    {
      ghost var before := t[..];
      var fresh_ctx := HmacInit(sha, passwd);
      Extends(sha, passwd, u[..], fresh_ctx);
      HmacFinal(sha, Update(fresh_ctx, u[..]), u);
      XorInto(t, u);
      assert t[..] == Xor(before, u[..]);
      j := j + 1;
    }
  }

  method XorInto(t: array<bv8>, u: array<bv8>)
    requires t.Length == u.Length == 32 && t != u
    modifies t
    ensures t[..] == Xor(old(t[..]), u[..])
  {
    ghost var was := t[..];
    for k := 0 to 32
      invariant forall n :: 0 <= n < k ==> t[n] == was[n] ^ u[n]
      invariant forall n :: k <= n < 32 ==> t[n] == was[n]
    {
      t[k] := t[k] ^ u[k];
    }
    assert t[..] == Xor(was, u[..]);
  }

  /** The buffer receives the derived key; an iteration count of 0 counts as 1. */
  method PBKDF2_SHA256(sha: Sha, passwd: Octets, salt: Octets, c: nat, buf: array<bv8>)
    requires ShaOk(sha) && buf.Length <= 32 * 0xFFFF_FFFF
    modifies buf
    ensures buf[..] == Derived(sha, passwd, salt, if c == 0 then 1 else c, buf.Length)
  {
    hide Key, XorAll, F, Hmac, Blocks;
    ghost var count := if c == 0 then 1 else c;
    var dkLen := buf.Length;
    var ctx := HmacInit(sha, passwd);
    var shared := Update(ctx, salt);
    var u, t := new bv8[32], new bv8[32];
    var i := 0;
    while i * 32 < dkLen
      invariant i <= BlocksFor(dkLen)
      invariant buf[..Min(32 * i, dkLen)] == Blocks(sha, passwd, salt, count, i)[..Min(32 * i, dkLen)]
      decreases dkLen - i * 32
    {
      Block(sha, passwd, salt, shared, c, i + 1, u, t);
      var clen := dkLen - i * 32;
      if clen > 32 { clen := 32; }
      assert buf[..i * 32] == Blocks(sha, passwd, salt, count, i);
      Store(buf, i * 32, t[..clen]);
      NextBlock(sha, passwd, salt, count, i, t[..], clen);
      assert buf[..i * 32 + clen] == Blocks(sha, passwd, salt, count, i) + t[..clen];
      i := i + 1;
    }
    assert buf[..dkLen] == buf[..];
  }

  lemma NextBlock(sha: Sha, p: Octets, s: Octets, c: nat, i: nat, t: Octets, n: nat)
    requires ShaOk(sha) && c >= 1 && i + 1 < 0x1_0000_0000 && t == F(sha, p, s, c, i + 1) && n <= 32
    ensures Blocks(sha, p, s, c, i + 1)[..32 * i + n] == Blocks(sha, p, s, c, i) + t[..n]
  {}
}
