/**
 * Big-endian unsigned integers of a fixed number of bytes, as read by the
 * `read_u24::<BigEndian>` and `read_u32::<BigEndian>` calls of the region
 * reader, together with the inverse encoding used to state round trips.
 */
module Bytes {
  import opened Base

  /** 256 to the power n: one more than the largest n-byte unsigned value. */
  function Pow256(n: nat): (p: nat)
    ensures p >= 1
  {
    if n == 0 then 1 else 256 * Pow256(n - 1)
  }

  /** The unsigned value of `s`, most significant byte first. */
  function BigEndian(s: seq<byte>): (v: nat)
    ensures v < Pow256(|s|)
    ensures v == 0 <==> forall k | 0 <= k < |s| :: s[k] == 0
  {
    if s == [] then 0
    else
      var prefix := s[..|s| - 1];
      var v := BigEndian(prefix) * 256 + s[|s| - 1];
      assert v == 0 ==> forall k | 0 <= k < |s| - 1 :: prefix[k] == 0;
      v
  }

  /** The n-byte big-endian encoding of `v`. */
  function ToBigEndian(v: nat, n: nat): (s: seq<byte>)
    requires v < Pow256(n)
    ensures |s| == n
  {
    if n == 0 then []
    else ToBigEndian(v / 256, n - 1) + [v % 256]
  }

  /** Reading back an encoded value gives the value. */
  lemma {:induction false} BigEndianOfToBigEndian(v: nat, n: nat)
    requires v < Pow256(n)
    ensures BigEndian(ToBigEndian(v, n)) == v
  {
    if n > 0 {
      var s := ToBigEndian(v, n);
      assert s[..n - 1] == ToBigEndian(v / 256, n - 1);
      BigEndianOfToBigEndian(v / 256, n - 1);
    }
  }

  /** Encoding the value read from n bytes gives those bytes back. */
  lemma {:induction false} ToBigEndianOfBigEndian(s: seq<byte>)
    ensures ToBigEndian(BigEndian(s), |s|) == s
  {
    if s != [] {
      var prefix := s[..|s| - 1];
      ToBigEndianOfBigEndian(prefix);
      assert BigEndian(s) / 256 == BigEndian(prefix);
      assert BigEndian(s) % 256 == s[|s| - 1];
      assert s == prefix + [s[|s| - 1]];
    }
  }
}
