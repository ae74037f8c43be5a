/** The Ed25519 signatures of the kit tool (RFC 8032, section 5.1): keys,
    signing and verification. The curve, its base point and their order are
    parameters; the tool's are `TOOL`. */
module Ed25519 {
  import opened Wrappers
  import opened Modular
  import opened Edwards
  import opened EdwardsGroup
  import opened Multiples

  const P: nat := 0x7fff_ffff_ffff_ffff_ffff_ffff_ffff_ffff_ffff_ffff_ffff_ffff_ffff_ffff_ffff_ffed

  const L: nat := 0x1000_0000_0000_0000_0000_0000_0000_0000_14de_f9de_a2f7_9cd6_5812_631a_5cf5_d3ed

  const TWO_254: nat := 0x4000_0000_0000_0000_0000_0000_0000_0000_0000_0000_0000_0000_0000_0000_0000_0000

  const TWO_255: nat := 2 * TWO_254

  // ---------------------------------------------------------------- bytes

  function FromBytes(b: Bytes): (n: nat)
    decreases |b|
  {
    if b == [] then 0 else b[0] as nat + 256 * FromBytes(b[1..])
  }

  /** Little-endian, `width` bytes. */
  function ToBytes(n: nat, width: nat): (b: Bytes)
    ensures |b| == width
    decreases width
  {
    if width == 0 then [] else [(n % 256) as Byte] + ToBytes(n / 256, width - 1)
  }

  function Power256(width: nat): nat {
    if width == 0 then 1 else 256 * Power256(width - 1)
  }

  lemma {:induction false} BytesRoundTrip(n: nat, width: nat)
    requires n < Power256(width)
    ensures FromBytes(ToBytes(n, width)) == n
    decreases width
  {
    if width > 0 {
      assert n / 256 < Power256(width - 1);
      BytesRoundTrip(n / 256, width - 1);
      var b := ToBytes(n, width);
      assert b[1..] == ToBytes(n / 256, width - 1);
    }
  }

  lemma ThirtyTwoBytes()
    ensures Power256(32) == 2 * TWO_255
  {
    assert Power256(4) == 0x1_0000_0000;
    assert Power256(8) == 0x1_0000_0000_0000_0000 by {
      assert Power256(8) == 256 * (256 * (256 * (256 * Power256(4))));
    }
    assert Power256(16) == 0x1_0000_0000_0000_0000_0000_0000_0000_0000 by {
      assert Power256(12) == 256 * (256 * (256 * (256 * Power256(8))));
      assert Power256(16) == 256 * (256 * (256 * (256 * Power256(12))));
    }
    assert Power256(24) == 256 * (256 * (256 * (256 * (256 * (256 * (256 * (256 * Power256(16)))))))) by {
      assert Power256(20) == 256 * (256 * (256 * (256 * Power256(16))));
    }
    assert Power256(32) == 256 * (256 * (256 * (256 * (256 * (256 * (256 * (256 * Power256(24)))))))) by {
      assert Power256(28) == 256 * (256 * (256 * (256 * Power256(24))));
    }
  }

  // ---------------------------------------------------------------- points and their encoding

  /** The even square root of (y^2 - 1) / (d y^2 + 1), when there is one. */
  function Xrecover(c: Curve, y: int): int
    requires c.m > 1
  {
    var xx := (y * y - 1) * Inv(c.m, c.d * y * y + 1);
    var root := Pow(xx, (c.m + 3) / 8) % c.m;
    var x := if (root * root - xx) % c.m != 0 then (root * c.i) % c.m else root;
    if x % 2 != 0 then c.m - x else x
  }

  datatype Params = Params(curve: Curve, base: Affine, order: nat)

  predicate Usable(g: Params) {
    g.curve.m > 1 && g.order > 0
  }

  /** The base point in extended coordinates. */
  function BasePoint(g: Params): Point
    requires Usable(g)
  {
    Point(g.base.x, g.base.y, 1, (g.base.x * g.base.y) % g.curve.m)
  }

  const D := (-121665 * (Pow(121666, P - 2) % P)) % P

  const I := Pow(2, (P - 1) / 4) % P

  const BASE_Y := (4 * Inv(P, 5)) % P

  const TOOL := Params(Curve(P, D, I), Affine(Xrecover(Curve(P, D, I), BASE_Y), BASE_Y), L)

  /** The y coordinate, and in the top bit the parity of x. */
  function Encode(a: Affine): Bytes
    requires 0 <= a.y
  {
    ToBytes(a.y + (a.x % 2) * TWO_255, 32)
  }

  function AffineOf(c: Curve, p: Point): Affine
    requires c.m > 1
  {
    var zi := Inv(c.m, p.z);
    Affine((p.x * zi) % c.m, (p.y * zi) % c.m)
  }

  function Compress(c: Curve, p: Point): Bytes
    requires c.m > 1
  {
    Encode(AffineOf(c, p))
  }

  /** The point an encoding names; its y is not reduced. */
  function Decompress(c: Curve, b: Bytes): Point
    requires c.m > 1
  {
    var n := FromBytes(b);
    var y := n % TWO_255;
    var x0 := Xrecover(c, y);
    var x := if x0 % 2 != (n / TWO_255) % 2 then c.m - x0 else x0;
    Point(x, y, 1, (x * y) % c.m)
  }

  // ---------------------------------------------------------------- keys and signatures

  type Sha512 = Bytes -> Bytes

  /** A 64-byte digest. */
  ghost predicate IsSha512(h: Sha512) {
    forall b :: |h(b)| == 64
  }

  function First(b: Bytes, n: nat): Bytes {
    if |b| < n then b else b[..n]
  }

  function Rest(b: Bytes, n: nat): Bytes {
    if |b| < n then [] else b[n..]
  }

  /** Bits 0 to 2 and 255 cleared, bit 254 set. */
  function Clamp(a: nat): nat {
    (a % TWO_254) / 8 * 8 + TWO_254
  }

  function SecretExpand(h: Sha512, seed: Bytes): (Bytes, nat) {
    (Rest(h(seed), 32), Clamp(FromBytes(First(h(seed), 32))))
  }

  function Times(c: Curve, n: nat, p: Point): Point
    requires c.m > 0
  {
    DoubleAndAdd(c, NEUTRAL, p, n)
  }

  function PublicKey(g: Params, h: Sha512, seed: Bytes): Bytes
    requires Usable(g)
  {
    Compress(g.curve, Times(g.curve, SecretExpand(h, seed).1, BasePoint(g)))
  }

  function Sign(g: Params, h: Sha512, seed: Bytes, message: Bytes): Bytes
    requires Usable(g)
  {
    var (prefix, a) := SecretExpand(h, seed);
    var public := Compress(g.curve, Times(g.curve, a, BasePoint(g)));
    var r := FromBytes(h(prefix + message)) % g.order;
    var rp := Compress(g.curve, Times(g.curve, r, BasePoint(g)));
    var k := FromBytes(h(rp + public + message)) % g.order;
    rp + ToBytes((r + k * a) % g.order, 32)
  }

  predicate Verify(g: Params, h: Sha512, public: Bytes, message: Bytes, signature: Bytes)
    requires Usable(g)
  {
    && |signature| == 64
    && var (r, s) := (signature[..32], FromBytes(signature[32..]));
       && s < g.order
       && var k := FromBytes(h(r + public + message)) % g.order;
          Compress(g.curve, Times(g.curve, s, BasePoint(g)))
          == Compress(g.curve, EdwardsAdd(g.curve, Decompress(g.curve, r), Times(g.curve, k, Decompress(g.curve, public))))
  }

  /** The secret scalar: a multiple of the cofactor with its top bit at 254. */
  lemma ClampedScalar(h: Sha512, seed: Bytes)
    ensures var a := SecretExpand(h, seed).1;
            a % 8 == 0 && TWO_254 <= a < TWO_255
  {
    var low := FromBytes(First(h(seed), 32)) % TWO_254;
    assert low / 8 * 8 <= low;
    assert TWO_254 % 8 == 0;
  }

  /** What the seed's digest gives: its second half is the prefix, and the scalar
      is the first half, little-endian, modulo 2^254 and without its last three
      bits, above 2^254. */
  lemma SecretOfSeed(h: Sha512, seed: Bytes)
    requires |h(seed)| == 64
    ensures var (prefix, a) := SecretExpand(h, seed);
            && prefix == h(seed)[32..]
            && a % 8 == 0 && TWO_254 <= a < TWO_255
            && a - TWO_254 <= FromBytes(h(seed)[..32]) % TWO_254 < a - TWO_254 + 8
  {
    ClampedScalar(h, seed);
    hide FromBytes;
    assert First(h(seed), 32) == h(seed)[..32] && Rest(h(seed), 32) == h(seed)[32..];
    ClampKeeps(FromBytes(h(seed)[..32]));
  }

  lemma ClampKeeps(n: nat)
    ensures Clamp(n) - TWO_254 <= n % TWO_254 < Clamp(n) - TWO_254 + 8
  {
    var low := n % TWO_254;
    assert low == low / 8 * 8 + low % 8;
  }

  /** The first byte is the least significant. */
  lemma {:induction false} BytesAreLittleEndian(b: Bytes, last: Byte)
    ensures FromBytes([last]) == last as nat
    ensures FromBytes(b + [last]) == FromBytes(b) + Power256(|b|) * last as nat
    decreases |b|
  {
    if b == [] {
      assert [] + [last] == [last] && [last][1..] == [];
    } else {
      BytesAreLittleEndian(b[1..], last);
      assert (b + [last])[1..] == b[1..] + [last];
      assert 256 * (Power256(|b| - 1) * last as nat) == Power256(|b|) * last as nat;
    }
  }
}
