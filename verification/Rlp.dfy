/**
 RLP strings and lists (Appendix B of the Ethereum Yellow Paper), as the consensus encoding of trie
 nodes uses them.  The result is that items delimit themselves: two encodings that start the same
 stretch of bytes are the same item.
 */
module Rlp {
  import opened ByteStrings

  datatype Item = Str(bytes: Bytes) | List(payload: Bytes)

  /** Big-endian bytes without leading zeros. */
  function Be(n: nat): Bytes { if n == 0 then [] else Be(n / 256) + [n % 256] }

  function FromBe(b: Bytes): nat {
    if b == [] then 0 else JoinByte(FromBe(b[..|b| - 1]), b[|b| - 1])
  }

  function JoinByte(hi: nat, lo: nat): nat { 256 * hi + lo }

  /** A length header; lengths of 2^64 and more have none and are kept out by Fits. */
  function Header(base: Byte, n: nat): (h: Bytes)
    requires base == 128 || base == 192
    ensures |h| > 0
  {
    if n <= 55 then [base as nat + n] else [(base as nat + 55 + |Be(n)|) % 256] + Be(n)
  }

  function Encode(r: Item): (b: Bytes)
    ensures |b| > 0
  {
    match r
    case Str(s) => if |s| == 1 && s[0] < 128 then s else Header(128, |s|) + s
    case List(p) => Header(192, |p|) + p
  }

  predicate Fits(r: Item) { match r case Str(s) => |s| < TWO64 case List(p) => |p| < TWO64 }

  lemma {:induction false} BeRoundTrip(n: nat)
    ensures FromBe(Be(n)) == n
  {
    if n != 0 {
      BeRoundTrip(n / 256);
      var b := Be(n);
      assert b[..|b| - 1] == Be(n / 256);
    }
  }

  lemma {:induction false} BeLength(n: nat, k: nat, bound: nat)
    requires n < bound && bound == Power256(k)
    ensures |Be(n)| <= k
    decreases k
  {
    if k > 0 && n != 0 {
      BeLength(n / 256, k - 1, Power256(k - 1));
    }
  }

  ghost function Power256(k: nat): nat { if k == 0 then 1 else 256 * Power256(k - 1) }

  lemma LongLengthFits(n: nat)
    requires 55 < n < TWO64
    ensures 1 <= |Be(n)| <= 8
  {
    assert Power256(2) == 0x1_0000;
    assert Power256(4) == 0x1_0000_0000;
    assert Power256(6) == 0x1_0000_0000_0000;
    BeLength(n, 8, TWO64);
  }

  lemma HeadersDelimit(base: Byte, m: nat, n: nat, x: Bytes, y: Bytes)
    requires base == 128 || base == 192
    requires m < TWO64 && n < TWO64
    requires Header(base, m) + x == Header(base, n) + y
    ensures m == n && x == y
  {
    var bm, bn := Header(base, m) + x, Header(base, n) + y;
    if m > 55 { LongLengthFits(m); }
    if n > 55 { LongLengthFits(n); }
    assert bm[0] == Header(base, m)[0] && bn[0] == Header(base, n)[0];
    assert |Header(base, m)| == |Header(base, n)|;
    assert Header(base, m) == bm[..|Header(base, m)|] == Header(base, n);
    assert x == bm[|Header(base, m)|..] == y;
    if m > 55 {
      assert Header(base, m)[1..] == Be(m) && Header(base, n)[1..] == Be(n);
      BeRoundTrip(m);
      BeRoundTrip(n);
    }
  }

  /** The first byte tells a lone byte, a string and a list apart. */
  lemma FirstByte(r: Item)
    requires Fits(r)
    ensures match r
            case Str(s) => if |s| == 1 && s[0] < 128 then Encode(r)[0] < 128 else 128 <= Encode(r)[0] < 192
            case List(_) => Encode(r)[0] >= 192
  {
    match r
    case Str(s) => if |s| > 55 { LongLengthFits(|s|); }
    case List(p) => if |p| > 55 { LongLengthFits(|p|); }
  }

  lemma PartsDelimit(base: Byte, s: Bytes, t: Bytes, x: Bytes, y: Bytes)
    requires base == 128 || base == 192
    requires |s| < TWO64 && |t| < TWO64
    requires Header(base, |s|) + s + x == Header(base, |t|) + t + y
    ensures s == t && x == y
  {
    hide Header;
    assert Header(base, |s|) + s + x == Header(base, |s|) + (s + x);
    assert Header(base, |t|) + t + y == Header(base, |t|) + (t + y);
    HeadersDelimit(base, |s|, |t|, s + x, t + y);
    assert s == (s + x)[..|s|] == t;
    assert x == (s + x)[|s|..] == y;
  }

  lemma ItemsDelimit(a: Item, b: Item, x: Bytes, y: Bytes)
    requires Fits(a) && Fits(b) && Encode(a) + x == Encode(b) + y
    ensures a == b && x == y
  {
    FirstByte(a);
    FirstByte(b);
    assert (Encode(a) + x)[0] == Encode(a)[0] && (Encode(b) + y)[0] == Encode(b)[0];
    if a.List? {
      PartsDelimit(192, a.payload, b.payload, x, y);
    } else if Encode(a)[0] < 128 {
      assert a.bytes == [Encode(a)[0]] == b.bytes;
      assert x == (Encode(a) + x)[1..] == y;
    } else {
      PartsDelimit(128, a.bytes, b.bytes, x, y);
    }
  }

  /** The bytes of a long length: big-endian, without a leading zero, at most eight. */
  ghost predicate LengthBytes(length: Bytes, n: nat) { 1 <= |length| <= 8 && length[0] != 0 && FromBe(length) == n }

  /** A payload behind its header: lengths below 56 in the first byte, others in the bytes behind it. */
  ghost predicate Headed(e: Bytes, base: nat, p: Bytes)
    requires base <= 0xc0
  {
    if |p| < 56 then e == [base + |p|] + p
    else exists length: Bytes :: LengthBytes(length, |p|) && e == [base + 55 + |length|] + length + p
  }

  lemma {:induction false} NoLeadingZero(n: nat)
    requires n > 0
    ensures Be(n) != [] && Be(n)[0] != 0
  {
    if n >= 256 { NoLeadingZero(n / 256); }
  }

  lemma LongHeader(base: nat, length: Bytes, p: Bytes)
    requires base <= 0xc0 && |p| >= 56 && LengthBytes(length, |p|)
    ensures Headed([base + 55 + |length|] + length + p, base, p)
  {
    hide LengthBytes;
  }

  lemma LongLength(n: nat)
    requires 56 <= n < TWO64
    ensures LengthBytes(Be(n), n)
  {
    LongLengthFits(n);
    NoLeadingZero(n);
    BeRoundTrip(n);
  }

  lemma HeaderBytes(base: Byte, n: nat)
    requires (base == 128 || base == 192) && 56 <= n < TWO64
    ensures |Be(n)| <= 8 && Header(base, n) == [base as nat + 55 + |Be(n)|] + Be(n)
  {
    LongLengthFits(n);
    hide Be;
  }

  lemma ShortHeader(base: Byte, p: Bytes)
    requires (base == 128 || base == 192) && |p| < 56
    ensures Headed(Header(base, |p|) + p, base, p)
  {
  }

  lemma HeaderIs(base: Byte, p: Bytes)
    requires (base == 128 || base == 192) && |p| < TWO64
    ensures Headed(Header(base, |p|) + p, base, p)
  {
    hide Headed, Header, LengthBytes, Be;
    if |p| < 56 {
      ShortHeader(base, p);
    } else {
      LongLength(|p|);
      HeaderBytes(base, |p|);
      LongHeader(base as nat, Be(|p|), p);
    }
  }

  /** A byte below 0x80 stands for itself; other strings have the header 0x80, lists 0xc0. */
  lemma EncodeIs(r: Item)
    requires Fits(r)
    ensures match r
            case Str(s) => if |s| == 1 && s[0] < 0x80 then Encode(r) == s else Headed(Encode(r), 0x80, s)
            case List(p) => Headed(Encode(r), 0xc0, p)
  {
    hide Headed, Header;
    match r
    case Str(s) => HeaderIs(128, s);
    case List(p) => HeaderIs(192, p);
  }

  lemma BigEndian(hi: Byte, lo: Byte)
    ensures FromBe([hi, lo]) == 256 * (hi as nat) + (lo as nat)
  {
    var b: Bytes := [hi, lo];
    assert b[..1] == [hi];
    assert FromBe([hi]) == hi by { assert [hi][..0] == []; }
  }
}
