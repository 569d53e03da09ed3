/** Byte strings, and unsigned integers stored in them least significant byte first. */
module Bytes {
  import opened NumberTheory

  type Byte = b: int | 0 <= b < 256

  function ByteLimit(width: nat): (n: nat)
    ensures n > 0
  {
    PowPositive(256, width);
    Pow(256, width)
  }

  function Stored(n: nat, width: nat): (s: seq<Byte>)
    ensures |s| == width
  {
    if width == 0 then [] else [n % 256] + Stored(n / 256, width - 1)
  }

  function Loaded(s: seq<Byte>): nat
  {
    if s == [] then 0 else s[0] + 256 * Loaded(s[1..])
  }

  /** A field gives back what was stored, cut to the width of the field. */
  lemma {:induction false} LoadStored(n: nat, width: nat)
    ensures Loaded(Stored(n, width)) == n % ByteLimit(width)
    decreases width
  {
    if width > 0 {
      var w := ByteLimit(width - 1);
      LoadStored(n / 256, width - 1);
      assert Stored(n, width)[1..] == Stored(n / 256, width - 1);
      var q, r := n / 256 / w, n / 256 % w;
      assert n == q * (256 * w) + (256 * r + n % 256) by {
        assert n / 256 == q * w + r;
        assert q * (256 * w) == 256 * (q * w);
      }
      DivModUnique(n, q, 256 * r + n % 256, 256 * w);
    } else {
      assert n % 1 == 0;
    }
  }

  lemma Widths()
    ensures ByteLimit(2) == 0x1_0000 && ByteLimit(4) == 0x1_0000_0000
    ensures ByteLimit(8) == 0x1_0000_0000_0000_0000
  {
    assert ByteLimit(4) == 0x1_0000_0000;
    assert ByteLimit(6) == 0x1_0000_0000_0000;
  }

  lemma LoadFits(n: nat, width: nat)
    requires n < ByteLimit(width)
    ensures Loaded(Stored(n, width)) == n
  {
    LoadStored(n, width);
    DivModUnique(n, 0, n, ByteLimit(width));
  }
}
