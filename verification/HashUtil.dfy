/** The value hash: integers of every width are widened to 64 bits before their bytes are mixed. */
module HashUtil {
  import opened Values

  /** One round of the byte mixer; the byte is a signed char, sign-extended to the word. */
  function Mix(hash: bv64, byte: bv8): bv64 {
    ((hash << 5) ^ (hash >> 27)) ^ SignExtend(byte)
  }

  function SignExtend(byte: bv8): bv64 {
    if byte & 0x80 == 0 then byte as bv64 else (byte as bv64) | 0xFFFF_FFFF_FFFF_FF00
  }

  /** The hash of a byte string, from the state reached before its last byte. */
  function HashSpec(bytes: seq<bv8>, start: bv64): bv64 {
    if bytes == [] then start else Mix(HashSpec(bytes[..|bytes| - 1], start), bytes[|bytes| - 1])
  }

  function HashOf(bytes: seq<bv8>): bv64 {
    HashSpec(bytes, (|bytes| % 0x1_0000_0000_0000_0000) as bv64)
  }

  method HashBytes(bytes: seq<bv8>) returns (hash: bv64)
    ensures hash == HashOf(bytes)
  {
    hash := (|bytes| % 0x1_0000_0000_0000_0000) as bv64;
    ghost var start := hash;
    var i := 0;
    while i < |bytes|
      invariant 0 <= i <= |bytes|
      invariant hash == HashSpec(bytes[..i], start)
    {
      assert bytes[..i + 1][..i] == bytes[..i];
      hash := Mix(hash, bytes[i]);
      i := i + 1;
    }
    assert bytes[..i] == bytes;
  }

  lemma HashLast(bytes: seq<bv8>, byte: bv8, start: bv64)
    ensures HashSpec(bytes + [byte], start) == Mix(HashSpec(bytes, start), byte)
  {
    assert (bytes + [byte])[..|bytes|] == bytes;
  }

  /** A round loses nothing of its byte. */
  lemma MixInjective(hash: bv64, a: bv8, b: bv8)
    requires a != b
    ensures Mix(hash, a) != Mix(hash, b)
  {}

  lemma LastByteMattersFrom(bytes: seq<bv8>, a: bv8, b: bv8, start: bv64)
    requires a != b
    ensures HashSpec(bytes + [a], start) != HashSpec(bytes + [b], start)
  {
    HashLast(bytes, a, start);
    HashLast(bytes, b, start);
    MixInjective(HashSpec(bytes, start), a, b);
  }

  /** Byte strings that differ in their last byte only hash differently. */
  lemma LastByteMatters(bytes: seq<bv8>, a: bv8, b: bv8)
    requires a != b
    ensures HashOf(bytes + [a]) != HashOf(bytes + [b])
  {
    assert |bytes + [a]| == |bytes + [b]|;
    LastByteMattersFrom(bytes, a, b, (|bytes + [a]| % 0x1_0000_0000_0000_0000) as bv64);
  }

  lemma OneMixed()
    ensures Mix(0x8, 1) == 0x101 && Mix(0x101, 0) == 0x2020 && Mix(0x2020, 0) == 0x4_0400
    ensures Mix(0x4_0400, 0) == 0x80_8000
    ensures Mix(0x80_8000, 0) == 0x1010_0000 && Mix(0x1010_0000, 0) == 0x2_0200_0002
    ensures Mix(0x2_0200_0002, 0) == 0x40_4000_0000 && Mix(0x40_4000_0000, 0) == 0x808_0000_0808
  {}

  lemma MixedOn(bytes: seq<bv8>, byte: bv8, start: bv64, hash: bv64, next: bv64)
    requires HashSpec(bytes, start) == hash && Mix(hash, byte) == next
    ensures HashSpec(bytes + [byte], start) == next
  {
    HashLast(bytes, byte, start);
  }

  lemma HashedHalf()
    ensures HashSpec([] + [1] + [0] + [0] + [0], 8) == 0x80_8000
  {
    OneMixed();
    MixedOn([], 1, 8, 0x8, 0x101);
    MixedOn([] + [1], 0, 8, 0x101, 0x2020);
    MixedOn([] + [1] + [0], 0, 8, 0x2020, 0x4_0400);
    MixedOn([] + [1] + [0] + [0], 0, 8, 0x4_0400, 0x80_8000);
  }

  /** The hash of the eight bytes of the number 1: the right shift comes into play. */
  lemma HashedOne()
    ensures HashSpec([] + [1] + [0] + [0] + [0] + [0] + [0] + [0] + [0], 8) == 0x808_0000_0808
  {
    var half: seq<bv8> := [] + [1] + [0] + [0] + [0];
    OneMixed();
    HashedHalf();
    MixedOn(half, 0, 8, 0x80_8000, 0x1010_0000);
    MixedOn(half + [0], 0, 8, 0x1010_0000, 0x2_0200_0002);
    MixedOn(half + [0] + [0], 0, 8, 0x2_0200_0002, 0x40_4000_0000);
    MixedOn(half + [0] + [0] + [0], 0, 8, 0x40_4000_0000, 0x808_0000_0808);
  }

  /** A byte with the high bit set is extended by its sign. */
  lemma HashedSigned()
    ensures HashSpec([] + [0x80], 1) == 0xFFFF_FFFF_FFFF_FFA0
  {
    assert Mix(1, 0x80) == 0xFFFF_FFFF_FFFF_FFA0;
    MixedOn([], 0x80, 1, 1, 0xFFFF_FFFF_FFFF_FFA0);
  }

  /** The `count` low-order bytes of a number, least significant first. */
  function LittleEndian(n: int, count: nat): seq<bv8>
    decreases count
  {
    if count == 0 then [] else [(n % 256) as bv8] + LittleEndian(n / 256, count - 1)
  }

  lemma ByteZero(k: int)
    requires 0 <= k < 256
    ensures k as bv8 == 0 <==> k == 0
  {}

  /** Read as a predicate, a number passes exactly when the first of its stored bytes is not zero. */
  lemma FirstByteDecides(w: TypeId, n: int)
    ensures Passes(IntV(w, n)) <==> LittleEndian(n, 8)[0] != 0
  {
    ByteZero(n % 256);
  }

  function StringBytes(s: string): seq<bv8> {
    seq(|s|, i requires 0 <= i < |s| => (s[i] as int % 256) as bv8)
  }

  function Pow256(c: nat): nat {
    if c == 0 then 1 else 256 * Pow256(c - 1)
  }

  function Zeros(c: nat): seq<bv8> {
    if c == 0 then [] else [0] + Zeros(c - 1)
  }

  lemma OnePlaceDown(k: nat, c: nat)
    requires c > 0
    ensures (k * Pow256(c)) % 256 == 0 && (k * Pow256(c)) / 256 == k * Pow256(c - 1)
  {
    var m := k * Pow256(c - 1);
    assert k * Pow256(c) == 256 * m;
  }

  /** A number `c` places up: zeros, then its lowest byte. */
  lemma {:induction false} OneHighByte(k: nat, c: nat)
    ensures LittleEndian(k * Pow256(c), c + 1) == Zeros(c) + [(k % 256) as bv8]
    decreases c
  {
    if c == 0 {
      assert k * Pow256(0) == k;
    } else {
      OnePlaceDown(k, c);
      OneHighByte(k, c - 1);
      NextPlace(k * Pow256(c), k * Pow256(c - 1), c, Zeros(c - 1), (k % 256) as bv8);
    }
  }

  lemma NextPlace(n: nat, high: nat, c: nat, zeros: seq<bv8>, byte: bv8)
    requires n % 256 == 0 && n / 256 == high && LittleEndian(high, c) == zeros + [byte]
    ensures LittleEndian(n, c + 1) == ([0] + zeros) + [byte]
  {
    assert [0] + (zeros + [byte]) == ([0] + zeros) + [byte];
  }

  /** Numbers that differ in their highest byte only hash differently, of whatever widths. */
  lemma NumbersHashApart(k: nat, l: nat, w: TypeId, v: TypeId)
    requires (k % 256) as bv8 != (l % 256) as bv8
    ensures HashValue(IntV(w, k * Pow256(7))) != HashValue(IntV(v, l * Pow256(7)))
  {
    OneHighByte(k, 7);
    OneHighByte(l, 7);
    LastByteMatters(Zeros(7), (k % 256) as bv8, (l % 256) as bv8);
  }

  /** The null marker of a width, as its 64-bit number. */
  function NullRaw(ty: TypeId): int {
    match ty
    case TinyInt => -0x80
    case SmallInt => -0x8000
    case Integer => -0x8000_0000
    case BigInt => -0x8000_0000_0000_0000
    case _ => 0
  }

  function HashValue(v: Value): bv64 {
    match v
    case IntV(_, n) => HashOf(LittleEndian(n, 8))
    case BoolV(b) => HashOf([if b then 1 else 0])
    case StrV(s) => HashOf(StringBytes(s) + [0])
    case Null(ty) => HashOf(LittleEndian(NullRaw(ty), 8))
  }

  lemma {:induction false} EqualStrings(a: string, b: string)
    requires CompareStrings(a, b) == 0
    ensures a == b
  {
    if a != [] && b != [] {
      EqualStrings(a[1..], b[1..]);
      assert a == [a[0]] + a[1..] && b == [b[0]] + b[1..];
    }
  }

  /** Values that compare equal hash alike, whatever integer widths they were stored with. */
  lemma EqualHashAlike(l: Value, r: Value)
    requires CompareEquals(l, r) == CmpTrue
    ensures HashValue(l) == HashValue(r)
  {
    SameContent(l, r);
  }

  lemma SameContent(l: Value, r: Value)
    requires CompareEquals(l, r) == CmpTrue
    ensures l == r || (l.IntV? && r.IntV? && l.n == r.n)
  {
    if l.StrV? { EqualStrings(l.s, r.s); }
  }
}
