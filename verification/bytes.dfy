/** Bytes and the big-endian numbers that every wire format of the repository is built from. */
module Bytes {
  type byte = x: int | 0 <= x < 0x100

  /** The number of values that `width` bytes can hold. */
  function Capacity(width: nat): (c: nat)
    ensures 0 < c
  {
    if width == 0 then 1 else 0x100 * Capacity(width - 1)
  }

  /** The low `width` bytes of n, most significant first: writing a number into a
      field that is too narrow for it drops its high bytes, as Go's conversions do. */
  function BigEndian(n: nat, width: nat): (b: seq<byte>)
    ensures |b| == width
  {
    if width == 0 then [] else BigEndian(n / 0x100, width - 1) + [n % 0x100]
  }

  function Number(b: seq<byte>): nat {
    if b == [] then 0 else 0x100 * Number(b[..|b| - 1]) + b[|b| - 1]
  }

  lemma {:induction false} NumberBound(b: seq<byte>)
    ensures Number(b) < Capacity(|b|)
  {
    if b != [] {
      NumberBound(b[..|b| - 1]);
    }
  }

  /** Reading back a written number gives the number exactly when it fitted. */
  lemma {:induction false} NumberOfBigEndian(n: nat, width: nat)
    ensures Number(BigEndian(n, width)) == n <==> n < Capacity(width)
  {
    if width != 0 {
      NumberOfBigEndian(n / 0x100, width - 1);
      var b := BigEndian(n, width);
      assert b[..|b| - 1] == BigEndian(n / 0x100, width - 1);
    }
  }

  lemma {:induction false} BigEndianOfNumber(b: seq<byte>)
    ensures BigEndian(Number(b), |b|) == b
  {
    if b != [] {
      var init := b[..|b| - 1];
      BigEndianOfNumber(init);
      assert Number(b) / 0x100 == Number(init);
      assert b == init + [b[|b| - 1]];
    }
  }

  lemma BigEndian1(n: nat)
    ensures BigEndian(n, 1) == [n % 0x100]
  {
    assert BigEndian(n / 0x100, 0) == [];
  }

  /** The more significant bytes come first. */
  lemma BigEndian2(n: nat)
    requires n < 0x1_0000
    ensures BigEndian(n, 2) == [n / 0x100, n % 0x100]
  {
    BigEndian1(n / 0x100);
  }

  lemma BigEndian4(n: nat)
    requires n < 0x1_0000_0000
    ensures BigEndian(n, 4) == [n / 0x100_0000, n / 0x1_0000 % 0x100, n / 0x100 % 0x100, n % 0x100]
  {
    BigEndian2(n / 0x1_0000);
    assert BigEndian(n / 0x100, 3) == BigEndian(n / 0x1_0000, 2) + [n / 0x100 % 0x100];
  }

  lemma Capacities()
    ensures Capacity(1) == 0x100 && Capacity(2) == 0x1_0000
    ensures Capacity(4) == 0x1_0000_0000 && Capacity(8) == 0x1_0000_0000_0000_0000
  {
    assert Capacity(3) == 0x100_0000;
    assert Capacity(5) == 0x100_0000_0000;
    assert Capacity(6) == 0x1_0000_0000_0000;
    assert Capacity(7) == 0x100_0000_0000_0000;
  }
}
