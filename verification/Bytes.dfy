/** Bytes, big-endian integers and byte streams. */
module Bytes {
  type byte = x: int | 0 <= x < 256

  type Bytes = seq<byte>

  function Pow256(width: nat): (p: nat)
    ensures p > 0
  {
    if width == 0 then 1 else 256 * Pow256(width - 1)
  }

  /** The low `width` bytes of `value`, most significant first. */
  function BigEndian(value: nat, width: nat): (b: Bytes)
    ensures |b| == width
  {
    if width == 0 then [] else BigEndian(value / 256, width - 1) + [value % 256]
  }

  function FromBigEndian(b: Bytes): nat {
    if b == [] then 0 else 256 * FromBigEndian(b[..|b| - 1]) + b[|b| - 1]
  }

  lemma {:induction false} BigEndianRoundTrip(value: nat, width: nat)
    requires value < Pow256(width)
    ensures FromBigEndian(BigEndian(value, width)) == value
  {
    if width > 0 {
      BigEndianRoundTrip(value / 256, width - 1);
      assert BigEndian(value, width)[..width - 1] == BigEndian(value / 256, width - 1);
    }
  }

  lemma BigEndianInjective(a: nat, b: nat, width: nat)
    requires a < Pow256(width) && b < Pow256(width) && BigEndian(a, width) == BigEndian(b, width)
    ensures a == b
  {
    BigEndianRoundTrip(a, width);
    BigEndianRoundTrip(b, width);
  }

  lemma {:induction false} FromBigEndianBound(b: Bytes)
    ensures FromBigEndian(b) < Pow256(|b|)
  {
    if b != [] {
      FromBigEndianBound(b[..|b| - 1]);
    }
  }

  /** Decoding determines the bytes. */
  lemma {:induction false} FromBigEndianRoundTrip(b: Bytes)
    ensures BigEndian(FromBigEndian(b), |b|) == b
  {
    if b != [] {
      var n := |b| - 1;
      FromBigEndianRoundTrip(b[..n]);
      var v := FromBigEndian(b);
      assert v / 256 == FromBigEndian(b[..n]) && v % 256 == b[n];
    }
  }

  /** The most significant byte comes first. */
  lemma {:induction false} MostSignificantFirst(value: nat, width: nat, i: nat)
    requires i < width
    ensures BigEndian(value, width)[i] == value / Pow256(width - 1 - i) % 256
    decreases width
  {
    if i < width - 1 {
      MostSignificantFirst(value / 256, width - 1, i);
      DivideTwice(value, Pow256(width - 2 - i));
    }
  }

  lemma DivideTwice(value: nat, p: nat)
    requires p > 0
    ensures value / 256 / p == value / (256 * p)
  {
    var q := value / (256 * p);
    var r := value % (256 * p);
    assert value == (256 * p) * q + r == 256 * (p * q) + r;
    assert value / 256 == p * q + r / 256;
    assert r / 256 < p;
    QuotientIs(value / 256, p, q, r / 256);
  }

  lemma QuotientIs(x: nat, p: nat, q: nat, r: nat)
    requires p > 0 && x == p * q + r && r < p
    ensures x / p == q
  {
    MultiplesApart(p, x / p, q);
    MultiplesApart(p, q, x / p);
  }

  lemma {:induction false} MultiplesApart(p: nat, a: nat, b: nat)
    ensures a < b ==> p * a + p <= p * b
    decreases b
  {
    if a < b {
      assert p * b == p * (b - 1) + p;
      MultiplesApart(p, a, b - 1);
    }
  }

  lemma Widths()
    ensures Pow256(4) == 0x1_0000_0000
    ensures Pow256(8) == 0x1_0000_0000_0000_0000
  {
    assert Pow256(1) == 256 * Pow256(0) == 256;
    assert Pow256(2) == 256 * Pow256(1) == 0x1_0000;
    assert Pow256(3) == 256 * Pow256(2) == 0x100_0000;
    assert Pow256(4) == 256 * Pow256(3) == 0x1_0000_0000;
    assert Pow256(5) == 256 * Pow256(4) == 0x100_0000_0000;
    assert Pow256(6) == 256 * Pow256(5) == 0x1_0000_0000_0000;
    assert Pow256(7) == 256 * Pow256(6) == 0x100_0000_0000_0000;
    assert Pow256(8) == 256 * Pow256(7);
  }

  /** A binary file: reads advance a position, writes append. */
  class ByteStream {
    var content: Bytes
    var position: nat

    constructor (initial: Bytes)
      ensures Valid() && content == initial && position == 0
    {
      content, position := initial, 0;
    }

    ghost predicate Valid()
      reads this
    {
      position <= |content|
    }

    ghost function Rest(): Bytes
      requires Valid()
      reads this
    {
      content[position..]
    }

    /** Up to `size` bytes: fewer only at the end of the stream. */
    method Read(size: nat) returns (data: Bytes)
      requires Valid()
      modifies this`position
      ensures Valid()
      ensures data == if size <= |old(Rest())| then old(Rest())[..size] else old(Rest())
      ensures Rest() == old(Rest())[|data|..]
    {
      var available := |content| - position;
      var n := if size <= available then size else available;
      data := content[position..position + n];
      position := position + n;
    }

    method Write(data: Bytes)
      requires Valid()
      modifies this`content
      ensures Valid() && content == old(content) + data
    {
      content := content + data;
    }
  }
}
