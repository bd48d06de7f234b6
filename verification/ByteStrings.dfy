/**
 Bytes, fixed-width big-endian integers and unsigned varints, as Go's encoding/binary
 package writes and reads them.
 */
module ByteStrings {

  type Byte = b: nat | b < 256
  type Bytes = seq<Byte>
  type Uint16 = n: nat | n < 0x1_0000
  type Uint32 = n: nat | n < 0x1_0000_0000

  const TWO64 := 0x1_0000_0000_0000_0000

  datatype Option<+T> = None | Some(value: T)

  /** A value taken from the front of a buffer, with how many bytes it used; or a failure. */
  datatype Split<+T> = Taken(value: T, rest: Bytes) | Bad

  // ---- big-endian uint32 ----

  function Uint32Bytes(x: Uint32): (b: Bytes)
    ensures |b| == 4
  {
    [x / 0x100_0000, x / 0x1_0000 % 256, x / 256 % 256, x % 256]
  }

  function TakeUint32(buf: Bytes): Split<Uint32> {
    if |buf| < 4 then Bad
    else
      Taken(JoinUint32(buf[0], buf[1], buf[2], buf[3]), buf[4..])
  }

  function JoinUint32(b3: nat, b2: nat, b1: nat, b0: nat): nat {
    ((b3 * 256 + b2) * 256 + b1) * 256 + b0
  }

  lemma Uint32RoundTrip(x: Uint32, rest: Bytes)
    ensures TakeUint32(Uint32Bytes(x) + rest) == Taken(x, rest)
  {
    var b := Uint32Bytes(x) + rest;
    assert b[4..] == rest;
    assert x == x / 256 * 256 + x % 256;
    assert x / 256 == x / 0x1_0000 * 256 + x / 256 % 256;
    assert x / 0x1_0000 == x / 0x100_0000 * 256 + x / 0x1_0000 % 256;
  }

  /** Four bytes, the most significant first. */
  lemma Uint32Digits(x: Uint32)
    ensures var b := Uint32Bytes(x);
            x == 0x100_0000 * (b[0] as nat) + 0x1_0000 * (b[1] as nat) + 0x100 * (b[2] as nat) + (b[3] as nat)
  {
    Uint32RoundTrip(x, []);
  }

  // ---- unsigned varints ----

  function Uvarint(x: nat): (b: Bytes)
    ensures |b| > 0
  {
    if x < 128 then [x] else [x % 128 + 128] + Uvarint(x / 128)
  }

  /** Reads a varint whose first i bytes are already consumed; 64-bit overflow and a short buffer fail. */
  function TakeUvarintFrom(buf: Bytes, i: nat): (r: Split<nat>)
    requires i <= 10
    ensures r.Taken? ==> |r.rest| < |buf|
  {
    if |buf| == 0 || i == 10 then Bad
    else if buf[0] < 128 then
      if i == 9 && buf[0] > 1 then Bad else Taken(buf[0], buf[1..])
    else
      match TakeUvarintFrom(buf[1..], i + 1)
      case Bad => Bad
      case Taken(v, rest) => Taken(buf[0] - 128 + 128 * v, rest)
  }

  function TakeUvarint(buf: Bytes): (r: Split<nat>)
    ensures r.Taken? ==> |r.rest| < |buf|
  {
    TakeUvarintFrom(buf, 0)
  }

  /** The number of values that still fit in 64 bits after i varint bytes. */
  ghost function Capacity(i: nat): nat
    requires i <= 9
    decreases 9 - i
  {
    if i == 9 then 2 else 128 * Capacity(i + 1)
  }

  lemma CapacityIs64Bits()
    ensures Capacity(0) == TWO64
  {
    assert Capacity(8) == 0x100;
    assert Capacity(6) == 0x40_0000;
    assert Capacity(4) == 0x10_0000_0000;
    assert Capacity(2) == 0x4_0000_0000_0000;
  }

  lemma {:induction false} UvarintRoundTripFrom(x: nat, i: nat, rest: Bytes)
    requires i <= 9 && x < Capacity(i)
    ensures TakeUvarintFrom(Uvarint(x) + rest, i) == Taken(x, rest)
  {
    var buf := Uvarint(x) + rest;
    if x < 128 {
      assert buf[1..] == rest;
    } else {
      assert i < 9;
      assert buf[1..] == Uvarint(x / 128) + rest;
      UvarintRoundTripFrom(x / 128, i + 1, rest);
    }
  }

  lemma UvarintRoundTrip(x: nat, rest: Bytes)
    requires x < TWO64
    ensures TakeUvarint(Uvarint(x) + rest) == Taken(x, rest)
  {
    CapacityIs64Bits();
    UvarintRoundTripFrom(x, 0, rest);
  }

  /** The low seven bits of the bytes, the least significant group first. */
  ghost function Groups(b: Bytes): nat { if b == [] then 0 else (b[0] as nat) % 128 + 128 * Groups(b[1..]) }

  /** Groups of seven bits; the top bit tells that more follow, and the last group is not an idle zero. */
  lemma {:induction false} UvarintGroups(x: nat)
    ensures var b := Uvarint(x);
            && Groups(b) == x && (forall i :: 0 <= i < |b| ==> (b[i] >= 128 <==> i < |b| - 1))
            && (|b| > 1 ==> b[|b| - 1] != 0)
  {
    var b := Uvarint(x);
    if x >= 128 {
      UvarintGroups(x / 128);
      assert b[1..] == Uvarint(x / 128);
      assert forall i :: 1 <= i < |b| ==> b[i] == b[1..][i - 1];
    } else {
      assert b[1..] == [];
    }
  }

  /** The order of byte strings: bytes.Compare(a, b) < 0. */
  predicate Less(a: Bytes, b: Bytes) {
    if b == [] then false
    else if a == [] then true
    else a[0] < b[0] || (a[0] == b[0] && Less(a[1..], b[1..]))
  }

  /** The first difference decides, and a proper prefix comes first. */
  lemma {:induction false} LessAt(a: Bytes, b: Bytes, n: nat)
    requires n <= |a| && n <= |b| && a[..n] == b[..n]
    ensures n < |a| && n < |b| && a[n] != b[n] ==> (Less(a, b) <==> a[n] < b[n])
    ensures n == |a| || n == |b| ==> (Less(a, b) <==> |a| < |b|)
  {
    if n > 0 {
      assert a[0] == a[..n][0] == b[..n][0] == b[0];
      assert a[1..][..n - 1] == a[..n][1..] == b[..n][1..] == b[1..][..n - 1];
      LessAt(a[1..], b[1..], n - 1);
    }
  }

  lemma {:induction false} LessTrichotomy(a: Bytes, b: Bytes)
    ensures Less(a, b) || Less(b, a) || a == b
    ensures !(Less(a, b) && Less(b, a)) && !Less(a, a)
    decreases a
  {
    if a != [] && b != [] && a[0] == b[0] {
      LessTrichotomy(a[1..], b[1..]);
      assert a == [a[0]] + a[1..] && b == [b[0]] + b[1..];
    }
    if a != [] { LessTrichotomy(a[1..], a[1..]); }
  }

  lemma {:induction false} LessTransitive(a: Bytes, b: Bytes, c: Bytes)
    requires !Less(b, a) && !Less(c, b)
    ensures !Less(c, a)
    decreases a
  {
    if a != [] && b != [] && c != [] && a[0] == b[0] == c[0] { LessTransitive(a[1..], b[1..], c[1..]); }
  }
}
