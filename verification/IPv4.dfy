/** IPv4 addresses and prefixes: their texts as the net package reads and prints them, and the
    prefix arithmetic of section 3.1 of RFC 4632. */
module IPv4 {
  import opened Text

  type Byte = x: int | 0 <= x < 256

  datatype Address = Address(a: Byte, b: Byte, c: Byte, d: Byte)

  datatype Prefix = Prefix(base: Address, bits: nat)

  // ------------------------------------------------------------------ texts

  /** One field of a dotted quad: digits without a superfluous leading zero, at most 255. */
  predicate IsField(t: string) { t != "" && AllDigits(t) && (|t| == 1 || t[0] != '0') && Value(t) < 256 }

  /** net.ParseIP on dotted quads. */
  function ParseAddress(s: string): Option<Address> {
    var p := Split(s, '.');
    if |p| == 4 && IsField(p[0]) && IsField(p[1]) && IsField(p[2]) && IsField(p[3])
    then Some(Address(Value(p[0]), Value(p[1]), Value(p[2]), Value(p[3])))
    else None
  }

  function AddressText(v: Address): string {
    Decimal(v.a) + "." + (Decimal(v.b) + "." + (Decimal(v.c) + "." + Decimal(v.d)))
  }

  /** The length after the slash: digits, leading zeros allowed. */
  predicate IsLength(t: string) { t != "" && AllDigits(t) && Value(t) <= 32 }

  /** net.ParseCIDR: the address as written and the prefix length. */
  function ParseCidr(s: string): Option<Prefix> {
    var p := Split(s, '/');
    if |p| == 2 && ParseAddress(p[0]).Some? && IsLength(p[1])
    then Some(Prefix(ParseAddress(p[0]).value, Value(p[1])))
    else None
  }

  function CidrText(p: Prefix): string { AddressText(p.base) + "/" + Decimal(p.bits) }

  lemma FieldOfByte(x: Byte)
    ensures IsField(Decimal(x)) && Value(Decimal(x)) == x && '.' !in Decimal(x) && '/' !in Decimal(x)
  {
    DecimalRoundTrip(x);
    if x < 10 {
      assert |Decimal(x)| == 1;
    }
  }

  lemma SplitQuad(a: string, b: string, c: string, d: string)
    requires '.' !in a && '.' !in b && '.' !in c && '.' !in d
    ensures Split(a + "." + (b + "." + (c + "." + d)), '.') == [a, b, c, d]
  {
    SplitFirst(a, b + "." + (c + "." + d), '.');
    SplitFirst(b, c + "." + d, '.');
    SplitFirst(c, d, '.');
    SplitWhole(d, '.');
  }

  /** Printing an address and reading it back gives the address. */
  lemma AddressRoundTrip(v: Address)
    ensures ParseAddress(AddressText(v)) == Some(v) && '/' !in AddressText(v)
  {
    FieldOfByte(v.a);
    FieldOfByte(v.b);
    FieldOfByte(v.c);
    FieldOfByte(v.d);
    SplitQuad(Decimal(v.a), Decimal(v.b), Decimal(v.c), Decimal(v.d));
  }

  lemma JoinFour(p: seq<string>)
    requires |p| == 4
    ensures Join(p, '.') == p[0] + "." + (p[1] + "." + (p[2] + "." + p[3]))
  {
    assert p[1..][1..] == p[2..] && p[2..][1..] == p[3..];
    assert Join(p[3..], '.') == p[3];
    assert Join(p[2..], '.') == p[2] + "." + p[3];
    assert Join(p[1..], '.') == p[1] + "." + (p[2] + "." + p[3]);
  }

  /** The text of an address is unique: what reads as an address is what is printed for it. */
  lemma AddressTextUnique(s: string)
    requires ParseAddress(s).Some?
    ensures AddressText(ParseAddress(s).value) == s
  {
    var p := Split(s, '.');
    CanonicalDigits(p[0]);
    CanonicalDigits(p[1]);
    CanonicalDigits(p[2]);
    CanonicalDigits(p[3]);
    JoinSplit(s, '.');
    JoinFour(p);
  }

  // ------------------------------------------------------------- arithmetic

  function Pow2(k: nat): (r: nat)
    ensures r > 0
  {
    if k == 0 then 1 else 2 * Pow2(k - 1)
  }

  lemma {:induction false} Pow2Add(j: nat, k: nat)
    ensures Pow2(j + k) == Pow2(j) * Pow2(k)
  {
    if j > 0 {
      Pow2Add(j - 1, k);
    }
  }

  /** How many bits of octet i a mask of n bits covers. */
  function Covered(n: nat, i: nat): nat
    requires n <= 32 && i < 4
  {
    if n >= 8 * (i + 1) then 8 else if n <= 8 * i then 0 else n - 8 * i
  }

  /** An octet with all but its first k bits cleared. */
  function MaskByte(x: Byte, k: nat): (r: Byte)
    requires k <= 8
    ensures r <= x
  {
    RemainderAtMost(x, Pow2(8 - k));
    x - x % Pow2(8 - k)
  }

  /** IP.Mask, octet by octet. */
  function Network(v: Address, n: nat): Address
    requires n <= 32
  {
    Address(MaskByte(v.a, Covered(n, 0)), MaskByte(v.b, Covered(n, 1)),
            MaskByte(v.c, Covered(n, 2)), MaskByte(v.d, Covered(n, 3)))
  }

  /** IPNet.Contains compares the masked octets. */
  predicate Covers(p: Prefix, v: Address)
    requires p.bits <= 32
  {
    Network(p.base, p.bits) == Network(v, p.bits)
  }

  function Number(v: Address): nat { ((v.a * 256 + v.b) * 256 + v.c) * 256 + v.d }

  function Block(n: nat): (r: nat)
    requires n <= 32
    ensures r > 0
  {
    Pow2(32 - n)
  }

  /** Quotient and remainder are unique. */
  lemma Remainder(q: nat, d: nat, r: nat)
    requires r < d
    ensures (q * d + r) / d == q && (q * d + r) % d == r
  {
    var n := q * d + r;
    SameQuotient(q, n / d, d, r, n % d);
  }

  lemma SameQuotient(q: nat, e: nat, d: nat, r: nat, t: nat)
    requires r < d && t < d && q * d + r == e * d + t
    ensures q == e && r == t
  {
    if e < q {
      MulStep(e, q, d);
    } else if q < e {
      MulStep(q, e, d);
    }
  }

  lemma RemainderAtMost(x: nat, d: nat)
    requires d > 0
    ensures x % d <= x
  {
    if x < d {
      Remainder(0, d, x);
    }
  }

  lemma MulStep(a: nat, b: nat, d: nat)
    requires a < b
    ensures a * d + d <= b * d
  {
    assert b * d == a * d + d + (b - a - 1) * d;
  }

  lemma ModSplit(x: nat, p: nat, m: nat, low: nat)
    requires p > 0 && low < m
    ensures p * m > 0 && (x * m + low) % (p * m) == (x % p) * m + low
  {
    var q, r := x / p, x % p;
    calc {
      x * m + low;
      { assert x == q * p + r; }
      (q * p + r) * m + low;
      (q * p) * m + r * m + low;
      { assert (q * p) * m == q * (p * m); }
      q * (p * m) + (r * m + low);
    }
    MulStep(r, p, m);
    Remainder(q, p * m, r * m + low);
  }

  lemma Distribute(a: nat, b: nat, m: nat)
    ensures (a + b) * m == a * m + b * m
  {
  }

  lemma Associate(a: nat, b: nat, m: nat)
    ensures a * (b * m) == (a * b) * m
  {
  }

  lemma ModDrop(hi: nat, q: nat, m: nat, x: nat)
    requires m > 0
    ensures (hi * (q * m) + x) % m == x % m
  {
    var e, r := x / m, x % m;
    var a := hi * q;
    Associate(hi, q, m);
    Distribute(a, e, m);
    var n := a * m + x;
    assert n == (a + e) * m + r;
    Remainder(a + e, m, r);
  }

  /** Higher octets do not change the remainder by a power of two up to 256. */
  lemma ByteMod(hi: nat, x: Byte, k: nat)
    requires k <= 8
    ensures (hi * 256 + x) % Pow2(k) == x % Pow2(k)
  {
    Pow2Add(8 - k, k);
    Pow2Bytes();
    ModDrop(hi, Pow2(8 - k), Pow2(k), x);
  }

  /** Rounding number y down to its block when the mask ends inside octet x: hi are the octets
      before it, low the number after it. */
  lemma MaskInside(y: nat, block: nat, hi: nat, x: Byte, k: nat, m: nat, low: nat)
    requires k <= 8 && low < m && y == (hi * 256 + x) * m + low && block == Pow2(8 - k) * m
    ensures block > 0 && y - y % block == (hi * 256 + MaskByte(x, k)) * m
  {
    var z := hi * 256 + x;
    ModSplit(z, Pow2(8 - k), m, low);
    ByteMod(hi, x, 8 - k);
    assert (z - x % Pow2(8 - k)) * m == z * m - x % Pow2(8 - k) * m;
  }

  lemma Pow2Bytes()
    ensures Pow2(0) == 1 && Pow2(8) == 0x100 && Pow2(16) == 0x10000 && Pow2(24) == 0x1000000
  {
    assert Pow2(8) == 0x100;
    Pow2Add(8, 8);
    Pow2Add(8, 16);
  }

  lemma MaskWhole(x: Byte)
    ensures MaskByte(x, 8) == x && MaskByte(x, 0) == 0
  {
    Pow2Bytes();
  }

  lemma BlockSplit(n: nat, k: nat)
    requires k <= n <= k + 8 && k <= 24
    ensures n <= 32 && Block(n) == Pow2(8 - (n - k)) * Pow2(24 - k)
  {
    Pow2Add(8 - (n - k), 24 - k);
  }

  /** Clearing host bits octet by octet rounds the 32-bit number down to its block. */
  lemma NetworkRoundsDown(v: Address, n: nat)
    requires n <= 32
    ensures Number(Network(v, n)) == Number(v) - Number(v) % Block(n)
  {
    Pow2Bytes();
    var y, block := Number(v), Block(n);
    if n <= 8 {
      BlockSplit(n, 0);
      MaskInside(y, block, 0, v.a, n, 0x1000000, (v.b * 256 + v.c) * 256 + v.d);
    } else if n <= 16 {
      BlockSplit(n, 8);
      MaskInside(y, block, v.a, v.b, n - 8, 0x10000, v.c * 256 + v.d);
    } else if n <= 24 {
      BlockSplit(n, 16);
      MaskInside(y, block, v.a * 256 + v.b, v.c, n - 16, 0x100, v.d);
    } else {
      BlockSplit(n, 24);
      MaskInside(y, block, (v.a * 256 + v.b) * 256 + v.c, v.d, n - 24, 1, 0);
    }
    NetworkOctets(v, n);
  }

  lemma NetworkOctets(v: Address, n: nat)
    requires n <= 32
    ensures Network(v, n) ==
            if n <= 8 then Address(MaskByte(v.a, n), 0, 0, 0)
            else if n <= 16 then Address(v.a, MaskByte(v.b, n - 8), 0, 0)
            else if n <= 24 then Address(v.a, v.b, MaskByte(v.c, n - 16), 0)
            else Address(v.a, v.b, v.c, MaskByte(v.d, n - 24))
  {
    MaskWhole(v.a);
    MaskWhole(v.b);
    MaskWhole(v.c);
    MaskWhole(v.d);
  }

  lemma NumberInjective(v: Address, w: Address)
    requires Number(v) == Number(w)
    ensures v == w
  {
    HighByte(v.a * 256 + v.b, v.c, v.d, w.a * 256 + w.b, w.c, w.d);
    HighByte(0, v.a, v.b, 0, w.a, w.b);
  }

  lemma HighByte(x: nat, c: Byte, d: Byte, y: nat, e: Byte, f: Byte)
    requires (x * 256 + c) * 256 + d == (y * 256 + e) * 256 + f
    ensures x == y && c == e && d == f
  {
    SameQuotient(x * 256 + c, y * 256 + e, 256, d, f);
    SameQuotient(x, y, 256, c, e);
  }

  lemma RoundsDownWithin(x: nat, y: nat, size: nat)
    requires size > 0
    ensures (x - x % size) % size == 0
    ensures x - x % size == y - y % size <==> x - x % size <= y < x - x % size + size
  {
    var q, start := x / size, x - x % size;
    assert start == q * size + 0;
    Remainder(q, size, 0);
    if start <= y < start + size {
      Remainder(q, size, y - start);
    }
  }

  /** A prefix contains exactly the addresses of one aligned block of 2^(32-n) numbers. */
  lemma CoversIffInBlock(p: Prefix, v: Address)
    requires p.bits <= 32
    ensures var start := Number(Network(p.base, p.bits));
            && start % Block(p.bits) == 0
            && (Covers(p, v) <==> start <= Number(v) < start + Block(p.bits))
  {
    NetworkRoundsDown(p.base, p.bits);
    NetworkRoundsDown(v, p.bits);
    RoundsDownWithin(Number(p.base), Number(v), Block(p.bits));
    if Number(Network(p.base, p.bits)) == Number(Network(v, p.bits)) {
      NumberInjective(Network(p.base, p.bits), Network(v, p.bits));
    }
  }
}
