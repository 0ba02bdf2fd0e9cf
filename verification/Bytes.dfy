/** Bytes, and numbers written as bytes, least significant first. */
module Bytes {

  type byte = b: int | 0 <= b < 256

  const UINT_LIMIT: nat := 0x1_0000_0000

  function LE2(n: nat): (r: seq<byte>)
    requires n < 65536
    ensures |r| == 2
  {
    [n % 256, n / 256]
  }

  function FromLE2(s: seq<byte>): (n: nat)
    requires |s| == 2
    ensures n < 65536
  {
    var a: nat, b: nat := s[0], s[1];
    a + 256 * b
  }

  function LE4(n: nat): (r: seq<byte>)
    requires n < UINT_LIMIT
    ensures |r| == 4
  {
    [n % 256, n / 256 % 256, n / 65536 % 256, n / 16777216]
  }

  function FromLE4(s: seq<byte>): (n: nat)
    requires |s| == 4
    ensures n < UINT_LIMIT
  {
    var a: nat, b: nat, c: nat, d: nat := s[0], s[1], s[2], s[3];
    a + 256 * b + 65536 * c + 16777216 * d
  }

  lemma LE4Inverse(n: nat)
    requires n < UINT_LIMIT
    ensures FromLE4(LE4(n)) == n
  {
    var a, b := n / 256, n / 65536;
    assert n == 256 * a + n % 256;
    assert a / 256 == b && a == 256 * b + a % 256;
    assert b / 256 == n / 16777216 && b == 256 * (b / 256) + b % 256;
  }
}
