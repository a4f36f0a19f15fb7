// Little-endian integers: what struct.pack/unpack mean, and the shift-and-or loops of
// client/src/bytes.h as steps on unbounded integers.
module LittleEndian {
  import opened Common

  // v >> 8*i
  function Shr8(v: nat, i: nat): nat { if i == 0 then v else Shr8(v / 256, i - 1) }

  // v << 8*i
  function Shl8(v: nat, i: nat): nat { if i == 0 then v else 256 * Shl8(v, i - 1) }

  // a | b, bit by bit
  function BitOr(a: nat, b: nat): nat
    decreases a + b
  {
    if a == 0 then b else if b == 0 then a
    else (if a % 2 == 1 || b % 2 == 1 then 1 else 0) + 2 * BitOr(a / 2, b / 2)
  }

  // The w low-order bytes of v, lowest first.
  function LE(v: nat, w: nat): (b: Bytes)
    ensures |b| == w
  {
    if w == 0 then [] else [(v % 256) as byte] + LE(v / 256, w - 1)
  }

  function FromLE(b: Bytes): nat {
    if b == [] then 0 else b[0] as nat + 256 * FromLE(b[1..])
  }

  // ----- the two are inverse -----

  lemma {:induction false} FromLEBound(b: Bytes)
    ensures FromLE(b) < Shl8(1, |b|)
  {
    if b != [] { FromLEBound(b[1..]); }
  }

  lemma {:induction false} FromLEOfLE(v: nat, w: nat)
    requires v < Shl8(1, w)
    ensures FromLE(LE(v, w)) == v
  {
    if w > 0 {
      FromLEOfLE(v / 256, w - 1);
      assert LE(v, w)[1..] == LE(v / 256, w - 1);
    }
  }

  lemma {:induction false} LEOfFromLE(b: Bytes)
    ensures LE(FromLE(b), |b|) == b
  {
    if b != [] {
      LEOfFromLE(b[1..]);
      assert FromLE(b) / 256 == FromLE(b[1..]);
      assert b == [b[0]] + b[1..];
    }
  }

  lemma Widths()
    ensures Shl8(1, 1) == 0x100 && Shl8(1, 2) == 0x1_0000
    ensures Shl8(1, 4) == 0x1_0000_0000 && Shl8(1, 8) == 0x1_0000_0000_0000_0000
  {
    assert Shl8(1, 3) == 0x100_0000 && Shl8(1, 5) == 0x100_0000_0000;
    assert Shl8(1, 6) == 0x1_0000_0000_0000 && Shl8(1, 7) == 0x100_0000_0000_0000;
  }

  // ----- one step of the writing loop -----

  lemma {:induction false} LESnoc(v: nat, w: nat)
    ensures LE(v, w + 1) == LE(v, w) + [(Shr8(v, w) % 256) as byte]
  {
    if w > 0 { LESnoc(v / 256, w - 1); }
  }

  // ----- one step of the reading loop -----

  lemma {:induction false} FromLESnoc(b: Bytes, x: byte)
    ensures FromLE(b + [x]) == FromLE(b) + Shl8(x as nat, |b|)
  {
    if b == [] {
      assert b + [x] == [x] && [x][1..] == [];
    } else {
      assert (b + [x])[1..] == b[1..] + [x];
      FromLESnoc(b[1..], x);
    }
  }

  lemma OrHalves(a: nat, bit: nat, c: nat)
    requires bit < 2
    ensures BitOr(2 * a + bit, 2 * c) == 2 * BitOr(a, c) + bit
  {
    assert (2 * a + bit) / 2 == a && (2 * c) / 2 == c;
  }

  lemma OrQuarters(p: nat, r: nat, q: nat)
    requires r < 4
    ensures BitOr(4 * p + r, 4 * q) == 4 * BitOr(p, q) + r
  {
    OrHalves(2 * p + r / 2, r % 2, 2 * q);
    OrHalves(p, r / 2, q);
  }

  lemma OrNibble(p: nat, r: nat, q: nat)
    requires r < 16
    ensures BitOr(16 * p + r, 16 * q) == 16 * BitOr(p, q) + r
  {
    OrQuarters(4 * p + r / 4, r % 4, 4 * q);
    OrQuarters(p, r / 4, q);
  }

  lemma OrByte(p: nat, r: nat, q: nat)
    requires r < 256
    ensures BitOr(256 * p + r, 256 * q) == 256 * BitOr(p, q) + r
  {
    OrNibble(16 * p + r / 16, r % 16, 16 * q);
    OrNibble(p, r / 16, q);
  }

  // Or-ing a byte in above everything read so far adds it.
  lemma {:induction false} OrIsPlus(a: nat, x: nat, i: nat)
    requires a < Shl8(1, i)
    ensures BitOr(a, Shl8(x, i)) == a + Shl8(x, i)
  {
    if i > 0 {
      OrIsPlus(a / 256, x, i - 1);
      OrByte(a / 256, a % 256, Shl8(x, i - 1));
    }
  }
}
