/** 64-bit words as include/rng.hpp combines them, and words that bits of another select. */
module BitWords {
  function Sum(a: bv64, b: bv64): bv64
  {
    a ^ b
  }

  function Left(x: bv64): bv64
  {
    x << 14
  }

  function Turned55(x: bv64): bv64
  {
    (x << 55) | (x >> 9)
  }

  function Turned36(x: bv64): bv64
  {
    (x << 36) | (x >> 28)
  }

  function Half(w: bv64): bv64
  {
    w >> 1
  }

  function Joined(a: bv64, b: bv64, c: bv64, d: bv64): bv64
  {
    a ^ b ^ c ^ d
  }

  function PickedWord(w: bv64, a: bv64): bv64
  {
    if w & 1 == 1 then a else 0
  }

  /** The words that the last four bits of w select, joined. */
  function Four(w: bv64, a: bv64, b: bv64, c: bv64, d: bv64): bv64
  {
    (if w & 1 == 1 then a else 0) ^ (if (w >> 1) & 1 == 1 then b else 0) ^
    (if (w >> 2) & 1 == 1 then c else 0) ^ (if (w >> 3) & 1 == 1 then d else 0)
  }

  /** The same for the last sixteen bits. */
  function Sixteen(w: bv64,
                   a: bv64, b: bv64, c: bv64, d: bv64, e: bv64, f: bv64, g: bv64, h: bv64,
                   i: bv64, j: bv64, k: bv64, l: bv64, m: bv64, n: bv64, o: bv64, p: bv64): bv64
  {
    Joined(Four(w, a, b, c, d), Four(w >> 4, e, f, g, h), Four(w >> 8, i, j, k, l), Four(w >> 12, m, n, o, p))
  }

  function By4(w: bv64): bv64
  {
    w >> 4
  }

  function By16(w: bv64): bv64
  {
    w >> 16
  }

  function Part(a: bv64, m: bv64): bv64
  {
    a & m
  }
}
