/** Bytes, and whole numbers as little-endian bytes. */
module Bytes {
  newtype byte = b: int | 0 <= b < 256

  /** A text as its bytes. */
  type Text = seq<byte>

  function Power(width: nat): (p: nat)
    ensures p >= 1
  {
    if width == 0 then 1 else 256 * Power(width - 1)
  }

  /** The lowest `width` bytes, lowest first. */
  function Little(n: nat, width: nat): (bytes: Text)
    ensures |bytes| == width
  {
    if width == 0 then [] else [(n % 256) as byte] + Little(n / 256, width - 1)
  }

  function FromLittle(bytes: Text): nat {
    if bytes == [] then 0 else bytes[0] as nat + 256 * FromLittle(bytes[1..])
  }

  lemma {:induction false} LittleIsExact(n: nat, width: nat)
    requires n < Power(width)
    ensures FromLittle(Little(n, width)) == n
  {
    if width > 0 {
      LittleIsExact(n / 256, width - 1);
      assert Little(n, width)[1..] == Little(n / 256, width - 1);
    }
  }

  /** Byte i is the digit of 256^i: the lowest comes first. */
  lemma {:induction false} LittleDigits(n: nat, width: nat, i: nat)
    requires i < width
    ensures Little(n, width)[i] as nat == n / Power(i) % 256
  {
    if i > 0 {
      LittleDigits(n / 256, width - 1, i - 1);
      DivideTwice(n, Power(i - 1));
    }
  }

  lemma DivideTwice(n: nat, k: nat)
    requires k > 0
    ensures n / 256 / k == n / (256 * k)
  {
    var q, r := n / 256 / k, n / 256 % k;
    assert n / 256 == k * q + r;
    assert 256 * (k * q + r) == 256 * k * q + 256 * r;
    QuotientIs(n, 256 * k, q, 256 * r + n % 256);
  }

  lemma QuotientIs(n: nat, k: nat, q: nat, r: nat)
    requires k > 0 && n == k * q + r && r < k
    ensures n / k == q
  {
    var e := n / k - q;
    assert k * (n / k) - k * q == e * k;
    MultipleIsLarge(e, k);
  }

  lemma MultipleIsLarge(e: int, k: nat)
    ensures e == 0 || e * k >= k || e * k <= 0 - k
  {
    if e > 0 {
      assert (e - 1) * k >= 0;
    } else if e < 0 {
      assert (-e - 1) * k >= 0;
    }
  }

  lemma {:induction false} FromLittleIsSmall(bytes: Text)
    ensures FromLittle(bytes) < Power(|bytes|)
  {
    if bytes != [] {
      FromLittleIsSmall(bytes[1..]);
    }
  }

  lemma Powers()
    ensures Power(1) == 0x100 && Power(2) == 0x1_0000 && Power(4) == 0x1_0000_0000
            && Power(8) == 0x1_0000_0000_0000_0000
  {
    assert Power(3) == 256 * Power(2);
    assert Power(5) == 256 * Power(4);
    assert Power(6) == 256 * Power(5);
    assert Power(7) == 256 * Power(6);
  }
}
