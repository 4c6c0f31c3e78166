/** Bytes and big-endian numbers. */
module Bytes {

  type byte = x: int | 0 <= x < 256

  function Power256(n: nat): (p: nat)
    ensures p > 0
  {
    if n == 0 then 1 else 256 * Power256(n - 1)
  }

  /** The last n base-256 digits of v, most significant first. */
  function BigEndian(v: nat, n: nat): (bs: seq<byte>)
    ensures |bs| == n
    decreases n
  {
    if n == 0 then [] else BigEndian(v / 256, n - 1) + [v % 256]
  }

  function FromBigEndian(bs: seq<byte>): nat {
    if bs == [] then 0 else 256 * FromBigEndian(bs[..|bs| - 1]) + bs[|bs| - 1]
  }

  /** A number that fits in n bytes comes back. */
  lemma {:induction false} BigEndianReads(v: nat, n: nat)
    requires v < Power256(n)
    ensures FromBigEndian(BigEndian(v, n)) == v
    decreases n
  {
    if n > 0 {
      BigEndianReads(v / 256, n - 1);
      assert BigEndian(v, n)[..n - 1] == BigEndian(v / 256, n - 1);
    }
  }

  /** Of a number that does not fit, a multiple of the field is lost. */
  lemma {:induction false} BigEndianPart(v: nat, n: nat)
    ensures FromBigEndian(BigEndian(v, n)) <= v
    ensures n >= 2 ==> FromBigEndian(BigEndian(v, n)) % 0x1_0000 == v % 0x1_0000
    decreases n
  {
    if n == 0 {
      assert BigEndian(v, 0) == [];
    } else {
      BigEndianPart(v / 256, n - 1);
      LastDigit(v, n);
      if n >= 2 { LastDigit(v / 256, n - 1); }
      hide BigEndian, FromBigEndian;
      if n >= 2 { TwoDigits(v, FromBigEndian(BigEndian(v / 256 / 256, n - 2))); }
    }
  }

  lemma TwoDigits(v: nat, rest: nat)
    ensures (256 * (256 * rest + v / 256 % 256) + v % 256) % 0x1_0000 == v % 0x1_0000
  {
    var low := 256 * (v / 256 % 256) + v % 256;
    assert v == 0x1_0000 * (v / 256 / 256) + low;
    Remainder(v / 256 / 256, low);
    Remainder(rest, low);
  }

  lemma Remainder(n: nat, low: nat)
    requires low < 0x1_0000
    ensures (0x1_0000 * n + low) % 0x1_0000 == low
  {
  }

  lemma LastDigit(v: nat, n: nat)
    requires n > 0
    ensures FromBigEndian(BigEndian(v, n)) == 256 * FromBigEndian(BigEndian(v / 256, n - 1)) + v % 256
  {
    assert BigEndian(v, n)[..n - 1] == BigEndian(v / 256, n - 1);
  }

  /** Pieces put together. */
  function Joined(pieces: seq<seq<byte>>): seq<byte> {
    if pieces == [] then [] else Joined(pieces[..|pieces| - 1]) + pieces[|pieces| - 1]
  }

  lemma JoinedAppend(pieces: seq<seq<byte>>, piece: seq<byte>)
    ensures Joined(pieces + [piece]) == Joined(pieces) + piece
  {
    assert (pieces + [piece])[..|pieces|] == pieces;
  }

  /** Concatenation is associative. */
  lemma Regroup(a: seq<byte>, b: seq<byte>, c: seq<byte>)
    ensures (a + b) + c == a + (b + c)
  {
  }
}
