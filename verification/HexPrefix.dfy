/**
 The three key encodings of the trie (trie/encoding.go): key bytes, one nibble per element with an
 optional terminator 16, and the compact form of Appendix C of the Ethereum Yellow Paper.
 */
module HexPrefix {
  import opened ByteStrings

  type Nibble = n: nat | n <= 16
  type Hex = seq<Nibble>

  const TERM: Nibble := 16

  predicate HasTerm(s: Hex) { |s| > 0 && s[|s| - 1] == TERM }

  predicate Plain(s: Hex) { forall i :: 0 <= i < |s| ==> s[i] < 16 }

  /** Plain nibbles, with a terminator at most at the end. */
  predicate ValidHex(s: Hex) { forall i :: 0 <= i < |s| - 1 ==> s[i] < 16 }

  /** The key of a whole value: plain nibbles closed by the terminator. */
  predicate Terminated(s: Hex) { HasTerm(s) && ValidHex(s) }

  function Body(s: Hex): Hex { if HasTerm(s) then s[..|s| - 1] else s }

  // ---- key bytes to nibbles ----

  function Unpack(b: Bytes): (h: Hex)
    ensures |h| == 2 * |b| && Plain(h)
  {
    seq(2 * |b|, i requires 0 <= i < 2 * |b| => if i % 2 == 0 then b[i / 2] / 16 else b[i / 2] % 16)
  }

  function Pack(h: Hex): (b: Bytes)
    requires Plain(h)
    ensures |b| == |h| / 2
  {
    seq(|h| / 2, i requires 0 <= i < |h| / 2 => Join(h[2 * i], h[2 * i + 1]))
  }

  function Join(hi: nat, lo: nat): nat { 16 * hi + lo }

  function KeybytesToHex(key: Bytes): (h: Hex)
    ensures Terminated(h)
  {
    Unpack(key) + [TERM]
  }

  lemma UnpackPack(h: Hex)
    requires |h| % 2 == 0 && Plain(h)
    ensures Unpack(Pack(h)) == h
  {
  }

  lemma PackUnpack(b: Bytes)
    ensures Pack(Unpack(b)) == b
  {
  }

  /** Each byte is spelled by two nibbles, the high one first, and 16 closes the key. */
  lemma KeyNibbles(key: Bytes, i: nat)
    requires i < |key|
    ensures |KeybytesToHex(key)| == 2 * |key| + 1 && KeybytesToHex(key)[2 * |key|] == 16
    ensures var hi: nat, lo: nat := KeybytesToHex(key)[2 * i], KeybytesToHex(key)[2 * i + 1];
            key[i] == 16 * hi + lo && hi < 16 && lo < 16
  {
    assert Unpack(key)[2 * i] == key[i] / 16 && Unpack(key)[2 * i + 1] == key[i] % 16;
  }

  lemma KeybytesToHexInjective(a: Bytes, b: Bytes)
    requires KeybytesToHex(a) == KeybytesToHex(b)
    ensures a == b
  {
    var ha, hb := KeybytesToHex(a), KeybytesToHex(b);
    assert Unpack(a) == ha[..|ha| - 1] && Unpack(b) == hb[..|hb| - 1];
    PackUnpack(a);
    PackUnpack(b);
  }

  /** keybytesToHex fills a buffer of nibbles in place. */
  method KeybytesToHexLoop(key: Bytes) returns (nibbles: array<Nibble>)
    ensures nibbles[..] == KeybytesToHex(key)
  {
    var l := |key| * 2 + 1;
    nibbles := new Nibble[l](_ => 0);
    for i := 0 to |key|
      invariant forall j :: 0 <= j < 2 * i ==> nibbles[j] == Unpack(key)[j]
    {
      nibbles[2 * i] := key[i] / 16;
      nibbles[2 * i + 1] := key[i] % 16;
    }
    nibbles[l - 1] := TERM;
  }

  /** hexToKeybytes: None stands for the panic on an odd number of nibbles. */
  function HexToKeybytes(hex: Hex): Option<Bytes>
    requires ValidHex(hex)
  {
    if |Body(hex)| % 2 != 0 then None else Some(Pack(Body(hex)))
  }

  /** hexToKeybytes undoes keybytesToHex and accepts nothing else with a terminator. */
  lemma HexToKeybytesInverse(hex: Hex)
    requires Terminated(hex)
    ensures HexToKeybytes(hex).None? <==> !exists key :: KeybytesToHex(key) == hex
    ensures forall key :: KeybytesToHex(key) == hex ==> HexToKeybytes(hex) == Some(key)
  {
    hide Pack, Unpack;
    forall key | KeybytesToHex(key) == hex ensures HexToKeybytes(hex) == Some(key) {
      assert Body(hex) == Unpack(key);
      PackUnpack(key);
    }
    if HexToKeybytes(hex).Some? {
      assert KeybytesToHex(Pack(Body(hex))) == hex by { UnpackPack(Body(hex)); }
    }
  }

  // ---- compact form ----

  function HexToCompact(hex: Hex): (b: Bytes)
    requires ValidHex(hex)
    ensures |b| == CompactLen(hex)
  {
    var h := Body(hex);
    var flag := if HasTerm(hex) then 2 else 0;
    if |h| % 2 == 1 then [Join(flag + 1, h[0])] + Pack(h[1..]) else [Join(flag, 0)] + Pack(h)
  }

  function CompactLen(hex: Hex): nat { |Body(hex)| / 2 + 1 }

  function CompactToHex(compact: Bytes): (h: Hex)
    ensures ValidHex(h)
  {
    if compact == [] then [] else ApplyFlags(KeybytesToHex(compact))
  }

  /** Drops the terminator unless the flag nibble asks for it, then the flag and padding nibbles. */
  function ApplyFlags(base: Hex): (h: Hex)
    requires |base| >= 3 && ValidHex(base)
    ensures ValidHex(h)
  {
    var base' := if base[0] < 2 then base[..|base| - 1] else base;
    base'[2 - base'[0] % 2..]
  }

  lemma JoinSplit(hi: nat, lo: nat)
    requires lo < 16
    ensures Join(hi, lo) / 16 == hi && Join(hi, lo) % 16 == lo
  {
  }

  /** The nibbles of a flag byte followed by packed nibbles. */
  lemma UnpackFlagged(flag: Nibble, first: Nibble, tail: Hex)
    requires |tail| % 2 == 0 && flag < 4 && first < 16 && Plain(tail)
    ensures KeybytesToHex([Join(flag, first)] + Pack(tail)) == [flag, first] + tail + [TERM]
  {
    var b0: Byte := Join(flag, first);
    var u := Unpack([b0] + Pack(tail));
    forall i | 0 <= i < |u| ensures u[i] == ([flag, first] + tail)[i] {
      JoinSplit(flag, first);
      if i >= 2 {
        assert u[i] == Unpack(Pack(tail))[i - 2];
      }
    }
  }

  lemma FlagsApplied(flag: Nibble, first: Nibble, tail: Hex)
    requires flag < 4 && first < 16 && Plain(tail)
    ensures ApplyFlags([flag, first] + tail + [TERM]) ==
            (if flag == 1 || flag == 3 then [first] else []) + tail + (if flag >= 2 then [TERM] else [])
  {
    var base: Hex := [flag, first] + tail + [TERM];
    assert base[..|base| - 1] == [flag, first] + tail;
    assert flag % 2 == (if flag == 1 || flag == 3 then 1 else 0);
  }

  lemma CompactToHexOf(flag: Nibble, first: Nibble, tail: Hex)
    requires |tail| % 2 == 0 && flag < 4 && first < 16 && Plain(tail)
    ensures CompactToHex([Join(flag, first)] + Pack(tail)) ==
            (if flag == 1 || flag == 3 then [first] else []) + tail + (if flag >= 2 then [TERM] else [])
  {
    UnpackFlagged(flag, first, tail);
    FlagsApplied(flag, first, tail);
  }

  /**
   The nibbles of the compact form: two bits that tell a terminator and an odd length, a zero nibble if the
   length is even, and the nibbles of the key.
   */
  lemma CompactNibbles(hex: Hex)
    requires ValidHex(hex)
    ensures var flag := 2 * (if HasTerm(hex) then 1 else 0) + |Body(hex)| % 2;
            KeybytesToHex(HexToCompact(hex)) == [flag] + (if |Body(hex)| % 2 == 0 then [0] else []) + Body(hex) + [16]
  {
    hide KeybytesToHex, HexToCompact, Body, HasTerm, ValidHex;
    if |Body(hex)| % 2 == 1 { CompactNibblesOdd(hex); } else { CompactNibblesEven(hex); }
  }

  lemma CompactNibblesOdd(hex: Hex)
    requires ValidHex(hex) && |Body(hex)| % 2 == 1
    ensures KeybytesToHex(HexToCompact(hex)) == [if HasTerm(hex) then 3 else 1] + Body(hex) + [16]
  {
    hide Pack, KeybytesToHex;
    var h := Body(hex);
    UnpackFlagged(if HasTerm(hex) then 3 else 1, h[0], h[1..]);
    FirstApart(if HasTerm(hex) then 3 else 1, h);
  }

  lemma FirstApart(flag: Nibble, h: Hex)
    requires h != []
    ensures [flag, h[0]] + h[1..] + [TERM] == [flag] + h + [16]
  {
  }

  lemma CompactNibblesEven(hex: Hex)
    requires ValidHex(hex) && |Body(hex)| % 2 == 0
    ensures KeybytesToHex(HexToCompact(hex)) == [if HasTerm(hex) then 2 else 0, 0] + Body(hex) + [16]
  {
    hide Pack, KeybytesToHex;
    UnpackFlagged(if HasTerm(hex) then 2 else 0, 0, Body(hex));
  }

  /** Any bytes in compact form: of the first nibble the low bit tells an odd length, a value from 2 on a terminator. */
  lemma CompactToHexNibbles(compact: Bytes)
    requires compact != []
    ensures var n := KeybytesToHex(compact);
            CompactToHex(compact) == n[if n[0] % 2 == 1 then 1 else 2..|n| - 1] + if n[0] >= 2 then [16] else []
  {
    hide ApplyFlags;
    ApplyFlagsIs(KeybytesToHex(compact));
  }

  lemma ApplyFlagsIs(n: Hex)
    requires |n| >= 3 && Terminated(n)
    ensures ApplyFlags(n) == n[if n[0] % 2 == 1 then 1 else 2..|n| - 1] + if n[0] >= 2 then [16] else []
  {
    if n[0] % 2 == 1 { LastApart(n, 1); } else { LastApart(n, 2); }
  }

  lemma LastApart(n: Hex, i: nat)
    requires i < |n|
    ensures n[i..] == n[i..|n| - 1] + [n[|n| - 1]] && n[..|n| - 1][i..] == n[i..|n| - 1]
  {
  }

  lemma CompactRoundTripOdd(hex: Hex)
    requires ValidHex(hex) && |Body(hex)| % 2 == 1
    ensures CompactToHex(HexToCompact(hex)) == hex
  {
    hide Pack, CompactToHex;
    var h := Body(hex);
    var flag: Nibble := if HasTerm(hex) then 3 else 1;
    assert HexToCompact(hex) == [Join(flag, h[0])] + Pack(h[1..]);
    CompactToHexOf(flag, h[0], h[1..]);
  }

  lemma CompactRoundTripEven(hex: Hex)
    requires ValidHex(hex) && |Body(hex)| % 2 == 0
    ensures CompactToHex(HexToCompact(hex)) == hex
  {
    hide Pack, CompactToHex;
    var flag: Nibble := if HasTerm(hex) then 2 else 0;
    assert HexToCompact(hex) == [Join(flag, 0)] + Pack(Body(hex));
    CompactToHexOf(flag, 0, Body(hex));
  }

  /** compactToHex undoes hexToCompact on every nibble string, with or without terminator. */
  lemma CompactRoundTrip(hex: Hex)
    requires ValidHex(hex)
    ensures CompactToHex(HexToCompact(hex)) == hex
  {
    if |Body(hex)| % 2 == 1 {
      CompactRoundTripOdd(hex);
    } else {
      CompactRoundTripEven(hex);
    }
  }

  lemma CompactInjective(a: Hex, b: Hex)
    requires ValidHex(a) && ValidHex(b) && HexToCompact(a) == HexToCompact(b)
    ensures a == b
  {
    CompactRoundTrip(a);
    CompactRoundTrip(b);
  }

  /** appendHexToCompact grows the buffer byte by byte; it agrees with hexToCompact. */
  method AppendHexToCompact(buf: Bytes, hex: Hex) returns (r: Bytes)
    requires ValidHex(hex)
    ensures r == buf + HexToCompact(hex)
    ensures |r| == |buf| + CompactLen(hex)
  {
    var flag := if HasTerm(hex) then 2 else 0;
    var h := Body(hex);
    if |h| % 2 == 1 {
      r := AppendNibbles(buf + [Join(flag + 1, h[0])], h[1..]);
      assert r == buf + ([Join(flag + 1, h[0])] + Pack(h[1..]));
    } else {
      r := AppendNibbles(buf + [Join(flag, 0)], h);
      assert r == buf + ([Join(flag, 0)] + Pack(h));
    }
  }

  /** The loop of appendHexToCompact and decodeNibbles: two nibbles to a byte. */
  method AppendNibbles(buf: Bytes, nibbles: Hex) returns (r: Bytes)
    requires |nibbles| % 2 == 0 && Plain(nibbles)
    ensures r == buf + Pack(nibbles)
  {
    r := buf;
    var bi, ni := 0, 0;
    while ni < |nibbles|
      invariant ni == 2 * bi && bi <= |nibbles| / 2
      invariant r == buf + Pack(nibbles)[..bi]
    {
      r := r + [Join(nibbles[ni], nibbles[ni + 1])];
      bi, ni := bi + 1, ni + 2;
    }
  }

  // ---- common prefixes ----

  function PrefixLen(a: Hex, b: Hex): (n: nat)
    ensures n <= |a| && n <= |b| && a[..n] == b[..n]
    ensures n < |a| && n < |b| ==> a[n] != b[n]
  {
    if |a| == 0 || |b| == 0 || a[0] != b[0] then 0
    else
      var n := PrefixLen(a[1..], b[1..]);
      assert a[..n + 1] == [a[0]] + a[1..][..n];
      assert b[..n + 1] == [b[0]] + b[1..][..n];
      n + 1
  }

  lemma PrefixLenUnique(a: Hex, b: Hex, n: nat)
    requires n <= |a| && n <= |b| && a[..n] == b[..n]
    requires n < |a| && n < |b| ==> a[n] != b[n]
    ensures n == PrefixLen(a, b)
  {
    var m := PrefixLen(a, b);
    assert forall i :: 0 <= i < n ==> a[i] == a[..n][i] == b[..n][i] == b[i];
    assert forall i :: 0 <= i < m ==> a[i] == a[..m][i] == b[..m][i] == b[i];
  }

  method PrefixLenLoop(a: Hex, b: Hex) returns (i: nat)
    ensures i == PrefixLen(a, b)
  {
    i := 0;
    var length := |a|;
    if |b| < length { length := |b|; }
    while i < length
      invariant i <= length && a[..i] == b[..i]
    {
      if a[i] != b[i] { break; }
      assert a[..i + 1] == a[..i] + [a[i]] && b[..i + 1] == b[..i] + [b[i]];
      i := i + 1;
    }
    PrefixLenUnique(a, b, i);
  }
}
