/** Bytes and the fixed-width big-endian integers of every frame format. */
module Bytes {

  type byte = x: int | 0 <= x < 256

  /** 256 to the power n: the number of values that n bytes can hold. */
  function Pow256(n: nat): (r: nat)
    ensures r > 0
  {
    if n == 0 then 1 else 256 * Pow256(n - 1)
  }

  lemma Pow256Values()
    ensures Pow256(2) == 0x1_0000
    ensures Pow256(4) == 0x1_0000_0000
    ensures Pow256(8) == 0x1_0000_0000_0000_0000
  {
    assert Pow256(2) == 256 * Pow256(1);
    assert Pow256(4) == 256 * Pow256(3) && Pow256(3) == 256 * Pow256(2);
    assert Pow256(6) == 256 * Pow256(5) && Pow256(5) == 256 * Pow256(4);
    assert Pow256(8) == 256 * Pow256(7) && Pow256(7) == 256 * Pow256(6);
  }

  /** `to_be_bytes` after a cast to a `width`-byte unsigned type: higher digits are cut off. */
  function ToBE(n: nat, width: nat): (s: seq<byte>)
    ensures |s| == width
  {
    if width == 0 then [] else ToBE(n / 256, width - 1) + [n % 256]
  }

  /** `from_be_bytes`. */
  function FromBE(s: seq<byte>): nat {
    if s == [] then 0 else FromBE(s[..|s| - 1]) * 256 + s[|s| - 1]
  }

  /** Decoding an encoding gives the number back modulo 256^width, so exactly when it fits. */
  lemma {:induction false} BigEndianRoundTrip(n: nat, width: nat)
    ensures FromBE(ToBE(n, width)) == n % Pow256(width)
    ensures FromBE(ToBE(n, width)) == n <==> n < Pow256(width)
  {
    if width == 0 {
    } else {
      BigEndianRoundTrip(n / 256, width - 1);
      var s := ToBE(n, width);
      assert s[..|s| - 1] == ToBE(n / 256, width - 1);
      ModDigits(n, Pow256(width - 1));
    }
  }

  /** The most significant byte comes first: byte i of w counts powers of 256^(w-1-i). */
  lemma {:induction false} BigEndianDigit(n: nat, width: nat, i: nat)
    requires i < width
    ensures ToBE(n, width)[i] == n / Pow256(width - 1 - i) % 256
  {
    if i < width - 1 {
      BigEndianDigit(n / 256, width - 1, i);
      DivTwice(n, Pow256(width - 2 - i));
    }
  }

  lemma DivTwice(n: nat, p: nat)
    requires p > 0
    ensures n / 256 / p == n / (256 * p)
  {
    var q, r := n / 256, n % 256;
    var qq, qr := q / p, q % p;
    assert n == qq * (256 * p) + (qr * 256 + r);
    DivModUnique(n, 256 * p, qq, qr * 256 + r);
  }

  lemma ModDigits(n: nat, p: nat)
    requires p > 0
    ensures n % (256 * p) == (n / 256) % p * 256 + n % 256
  {
    var q, r := n / 256, n % 256;
    var qq, qr := q / p, q % p;
    assert q == qq * p + qr;
    assert n == qq * (256 * p) + (qr * 256 + r);
    DivModUnique(n, 256 * p, qq, qr * 256 + r);
  }

  lemma DivModUnique(n: nat, d: nat, q: nat, r: nat)
    requires n == q * d + r && r < d
    ensures n % d == r && n / d == q
  {
    var q', r' := n / d, n % d;
    assert n == q' * d + r';
    assert (q - q') * d == r' - r by { Distribute(q, q', d); }
    if q != q' {
      NonzeroMultiple(q - q', d);
    }
  }

  lemma Distribute(a: int, b: int, d: int)
    ensures (a - b) * d == a * d - b * d
  {}

  lemma NonzeroMultiple(k: int, d: nat)
    requires k != 0
    ensures k * d >= d || k * d + d <= 0
  {
    if k >= 1 {
      assert (k - 1) * d >= 0;
    } else {
      assert (-1 - k) * d >= 0;
    }
  }

  /** Every byte string is the encoding of the number it decodes to. */
  lemma {:induction false} BigEndianOnto(s: seq<byte>)
    ensures FromBE(s) < Pow256(|s|)
    ensures ToBE(FromBE(s), |s|) == s
  {
    if s == [] {
    } else {
      var front := s[..|s| - 1];
      BigEndianOnto(front);
      assert FromBE(s) / 256 == FromBE(front);
      assert s == front + [s[|s| - 1]];
    }
  }

  // ---------------------------------------------------------------- files

  function Zeros(n: nat): seq<byte> { seq(n, _ => 0) }

  /** The file cut off, or filled up with zeros, to `size` bytes. */
  function Resized(file: seq<byte>, size: nat): seq<byte> {
    if size <= |file| then file[..size] else file + Zeros(size - |file|)
  }
}
