/**
 Store keys of trie nodes, and pruning by key range (muxdb/backend.go).
 */
module NodeKeys {
  import opened ByteStrings
  import opened HexPrefix
  import opened TrieNode

  const MAX_UINT32: Uint32 := 0xFFFF_FFFF
  const HIST_SPACE: Byte := 0

  // ---- node paths ----

  /** appendNodePath, behind an empty buffer. */
  function NodePath(path: Hex): (b: Bytes)
    requires Plain(path)
    ensures |b| >= 2
  {
    if |path| == 0 then [0, 0]
    else if |path| == 1 then [path[0], 1]
    else if |path| == 2 then [path[0], Join(path[1], 2)]
    else [Join(1, path[0]), Join(path[1], 2)] + NodePath(path[2..])
  }

  /** Reads a path off the front of a key. */
  function TakePath(buf: Bytes): Split<Hex> {
    if |buf| < 2 then Bad
    else
      var more, first, len, second := buf[0] / 16, buf[0] % 16, buf[1] % 16, buf[1] / 16;
      if more == 0 then
        if len == 0 then Taken([], buf[2..])
        else if len == 1 then Taken([first], buf[2..])
        else Taken([first, second], buf[2..])
      else
        match TakePath(buf[2..])
        case Bad => Bad
        case Taken(p, rest) => Taken([first, second] + p, rest)
  }

  /** Paths are self-delimiting: no path key is a prefix of another. */
  lemma {:induction false} PathRoundTrip(path: Hex, rest: Bytes)
    requires Plain(path)
    ensures TakePath(NodePath(path) + rest) == Taken(path, rest)
  {
    var buf := NodePath(path) + rest;
    if |path| <= 2 {
      assert buf[2..] == rest;
      if |path| == 2 {
        JoinSplit(path[1], 2);
        assert path == [path[0], path[1]];
      } else if |path| == 1 {
        assert path == [path[0]];
      }
    } else {
      JoinSplit(1, path[0]);
      JoinSplit(path[1], 2);
      assert buf[2..] == NodePath(path[2..]) + rest;
      PathRoundTrip(path[2..], rest);
      assert path == [path[0], path[1]] + path[2..];
    }
  }

  lemma PathsPrefixFree(p: Hex, q: Hex)
    requires Plain(p) && Plain(q) && NodePath(p) <= NodePath(q)
    ensures p == q
  {
    var rest := NodePath(q)[|NodePath(p)|..];
    assert NodePath(q) == NodePath(p) + rest && NodePath(q) + [] == NodePath(q);
    PathRoundTrip(p, rest);
    PathRoundTrip(q, []);
  }

  // ---- whole keys ----

  /** The remainder of the major version, in as few bytes as the partition factor allows. */
  function ModBytes(factor: Uint32, mod: Uint32): Bytes
    requires factor > 0
  {
    if factor > 0x100_0000 then Uint32Bytes(mod)
    else if factor > 0x1_0000 then [mod / 0x1_0000 % 256, mod / 256 % 256, mod % 256]
    else if factor > 0x100 then [mod / 256 % 256, mod % 256]
    else if factor > 1 then [mod % 256]
    else []
  }

  function Quot(major: Uint32, factor: Uint32): Uint32
    requires factor > 0
  {
    major / factor
  }

  function Rem(major: Uint32, factor: Uint32): (r: Uint32)
    requires factor > 0
    ensures r < factor
  {
    major % factor
  }

  lemma MulMono(x: int, y: int, f: nat)
    requires x <= y
    ensures x * f <= y * f
  {
  }

  lemma QuotRem(a: Uint32, b: Uint32, f: Uint32)
    requires f > 0 && Quot(a, f) == Quot(b, f) && Rem(a, f) == Rem(b, f)
    ensures a == b
  {
    assert a == a / f * f + a % f;
    assert b == b / f * f + b % f;
  }

  lemma QuotMono(a: Uint32, b: Uint32, f: Uint32)
    requires f > 0 && a <= b
    ensures Quot(a, f) <= Quot(b, f)
  {
    assert a == a / f * f + a % f;
    assert b == b / f * f + b % f;
    if a / f > b / f { MulMono(b / f + 1, a / f, f); }
  }

  function Partition(factor: Uint32, major: Uint32): Bytes
    requires factor > 0
  {
    if factor != MAX_UINT32 then Uint32Bytes(Quot(major, factor)) else []
  }

  function MinorBytes(minor: Uint32): Bytes { if minor != 0 then Uvarint(minor) else [] }

  function HistNodeKey(factor: Uint32, name: Bytes, path: Hex, ver: Version): Bytes
    requires factor > 0 && Plain(path)
  {
    [HIST_SPACE] + Partition(factor, ver.major) + name + NodePath(path)
    + ModBytes(factor, Rem(ver.major, factor)) + MinorBytes(ver.minor)
  }

  /** AppendHistNodeKey extends a buffer step by step. */
  method AppendHistNodeKey(factor: Uint32, buf: Bytes, name: Bytes, path: Hex, ver: Version) returns (r: Bytes)
    requires factor > 0 && Plain(path)
    ensures r == buf + HistNodeKey(factor, name, path, ver)
  {
    hide Quot, Rem, NodePath, Uint32Bytes;
    r := buf + [HIST_SPACE];
    if factor != MAX_UINT32 {
      r := r + Uint32Bytes(Quot(ver.major, factor));
    }
    r := r + name;
    r := AppendNodePath(r, path);
    ghost var head := [HIST_SPACE] + Partition(factor, ver.major) + name + NodePath(path);
    assert r == buf + head;
    var mod := Rem(ver.major, factor);
    if factor > 0x100_0000 {
      r := r + Uint32Bytes(mod);
    } else if factor > 0x1_0000 {
      r := r + [mod / 0x1_0000 % 256, mod / 256 % 256, mod % 256];
    } else if factor > 0x100 {
      r := r + [mod / 256 % 256, mod % 256];
    } else if factor > 1 {
      r := r + [mod % 256];
    }
    ghost var mid := head + ModBytes(factor, mod);
    assert r == buf + mid;
    if ver.minor != 0 {
      r := r + Uvarint(ver.minor);
    }
    assert r == buf + (mid + MinorBytes(ver.minor));
  }

  method AppendNodePath(buf: Bytes, path: Hex) returns (r: Bytes)
    requires Plain(path)
    ensures r == buf + NodePath(path)
    decreases |path|
  {
    if |path| <= 2 {
      r := buf + NodePath(path);
    } else {
      r := buf + [Join(1, path[0]), Join(path[1], 2)];
      r := AppendNodePath(r, path[2..]);
    }
  }

  lemma ModInjective(factor: Uint32, m: Uint32, n: Uint32)
    requires factor > 0 && m < factor && n < factor && ModBytes(factor, m) == ModBytes(factor, n)
    ensures m == n
  {
    if factor > 0x100_0000 {
      Uint32RoundTrip(m, []);
      Uint32RoundTrip(n, []);
      assert Uint32Bytes(m) + [] == Uint32Bytes(n) + [];
    } else {
      SmallSplit(m);
      SmallSplit(n);
    }
  }

  lemma SmallSplit(m: Uint32)
    requires m < 0x100_0000
    ensures m == (m / 0x1_0000 % 256) * 0x1_0000 + (m / 256 % 256) * 256 + m % 256
  {
    assert m / 0x1_0000 < 256;
    assert m / 256 == m / 0x1_0000 * 256 + m / 256 % 256;
  }

  lemma MinorInjective(a: Uint32, b: Uint32)
    requires MinorBytes(a) == MinorBytes(b)
    ensures a == b
  {
    UvarintRoundTrip(a, []);
    UvarintRoundTrip(b, []);
    assert Uvarint(a) + [] == Uvarint(a) && Uvarint(b) + [] == Uvarint(b);
  }

  /** The major versions that share their bytes: only 0 and the largest, and only without partitions. */
  predicate SameMajor(factor: Uint32, a: Uint32, b: Uint32) {
    a == b || (factor == MAX_UINT32 && (a == 0 || a == MAX_UINT32) && (b == 0 || b == MAX_UINT32))
  }

  lemma SameMajorBytes(factor: Uint32, a: Uint32, b: Uint32)
    requires factor > 0
    ensures Partition(factor, a) == Partition(factor, b)
            && ModBytes(factor, Rem(a, factor)) == ModBytes(factor, Rem(b, factor))
            <==> SameMajor(factor, a, b)
  {
    hide Quot, Rem, ModBytes, Uint32Bytes;
    if Partition(factor, a) == Partition(factor, b)
       && ModBytes(factor, Rem(a, factor)) == ModBytes(factor, Rem(b, factor)) {
      ModInjective(factor, Rem(a, factor), Rem(b, factor));
      if factor != MAX_UINT32 {
        PartitionInjective(Quot(a, factor), Quot(b, factor));
        QuotRem(a, b, factor);
      } else {
        LargestRem(a);
        LargestRem(b);
      }
    }
    if SameMajor(factor, a, b) && a != b {
      LargestRem(a);
      LargestRem(b);
    }
  }

  lemma PartitionInjective(a: Uint32, b: Uint32)
    requires Uint32Bytes(a) == Uint32Bytes(b)
    ensures a == b
  {
    Uint32RoundTrip(a, []);
    Uint32RoundTrip(b, []);
    assert Uint32Bytes(a) + [] == Uint32Bytes(b) + [];
  }

  lemma LargestRem(a: Uint32)
    ensures Rem(a, MAX_UINT32) == if a == MAX_UINT32 then 0 else a
  {
  }

  /** For one trie name, two nodes share a key exactly when path, minor and major version agree. */
  lemma KeysClashIff(factor: Uint32, name: Bytes, p: Hex, v: Version, q: Hex, w: Version)
    requires factor > 0 && Plain(p) && Plain(q)
    ensures HistNodeKey(factor, name, p, v) == HistNodeKey(factor, name, q, w)
            <==> p == q && v.minor == w.minor && SameMajor(factor, v.major, w.major)
  {
    hide NodePath, TakePath, Uint32Bytes, MinorBytes, Quot, Rem;
    SameMajorBytes(factor, v.major, w.major);
    var kp, kq := HistNodeKey(factor, name, p, v), HistNodeKey(factor, name, q, w);
    if kp == kq {
      var n := 1 + |Partition(factor, v.major)| + |name|;
      assert |Partition(factor, v.major)| == |Partition(factor, w.major)|;
      var tp := ModBytes(factor, Rem(v.major, factor)) + MinorBytes(v.minor);
      var tq := ModBytes(factor, Rem(w.major, factor)) + MinorBytes(w.minor);
      assert Partition(factor, v.major) == kp[1..n - |name|] == kq[1..n - |name|] == Partition(factor, w.major);
      assert kp[n..] == NodePath(p) + tp && kq[n..] == NodePath(q) + tq;
      PathRoundTrip(p, tp);
      PathRoundTrip(q, tq);
      var k := |ModBytes(factor, Rem(v.major, factor))|;
      assert k == |ModBytes(factor, Rem(w.major, factor))|;
      assert tp[..k] == ModBytes(factor, Rem(v.major, factor)) && tq[..k] == ModBytes(factor, Rem(w.major, factor));
      assert tp[k..] == MinorBytes(v.minor) && tq[k..] == MinorBytes(w.minor);
      MinorInjective(v.minor, w.minor);
    }
  }

  /** Without partitions the largest major version clashes with version 0. */
  lemma ClashWithoutPartitions(name: Bytes, p: Hex, minor: Uint32)
    requires Plain(p)
    ensures HistNodeKey(MAX_UINT32, name, p, Version(0, minor)) ==
            HistNodeKey(MAX_UINT32, name, p, Version(MAX_UINT32, minor))
  {
    KeysClashIff(MAX_UINT32, name, p, Version(0, minor), p, Version(MAX_UINT32, minor));
  }

  // ---- pruning ----

  predicate InRange(k: Bytes, start: Bytes, limit: Bytes) { !Less(k, start) && Less(k, limit) }

  function RangeKey(ptn: Uint32): Bytes { [HIST_SPACE] + Uint32Bytes(ptn) }

  class Store {
    var m: map<Bytes, Bytes>

    method DeleteRange(start: Bytes, limit: Bytes)
      modifies this
      ensures m == map k | k in old(m) && !InRange(k, start, limit) :: old(m)[k]
    {
      m := map k | k in m && !InRange(k, start, limit) :: m[k];
    }

    /**
     DeleteHistoryNodes: exactly the historical nodes of partitions from start up to limit are gone.  Without
     partitions nothing is deleted below the largest major version.
     */
    method DeleteHistoryNodes(factor: Uint32, startMajor: Uint32, limitMajor: Uint32)
      requires 0 < factor
      modifies this
      ensures forall k :: k in old(m) && (k == [] || k[0] != HIST_SPACE) ==> k in m && m[k] == old(m)[k]
      ensures factor == MAX_UINT32 && limitMajor < MAX_UINT32 ==> m == old(m)
      ensures factor < MAX_UINT32 ==> forall name: Bytes, path: Hex, ver: Version ::
                Plain(path) && HistNodeKey(factor, name, path, ver) in old(m) ==>
                  var k := HistNodeKey(factor, name, path, ver);
                  if Quot(startMajor, factor) <= Quot(ver.major, factor) < Quot(limitMajor, factor) then k !in m
                  else k in m && m[k] == old(m)[k]
      ensures forall k :: k in old(m) ==>
                (k in m <==> !InRange(k, RangeKey(Quot(startMajor, factor)), RangeKey(Quot(limitMajor, factor))))
      ensures forall k :: k in m ==> k in old(m) && m[k] == old(m)[k]
    {
      hide HistNodeKey, Quot, Less, RangeKey;
      var startPtn, limitPtn := Quot(startMajor, factor), Quot(limitMajor, factor);
      DeleteRange(RangeKey(startPtn), RangeKey(limitPtn));
      forall k | k in old(m) && (k == [] || k[0] != HIST_SPACE) ensures k in m && m[k] == old(m)[k] {
        OtherSpaces(k, startPtn, limitPtn);
      }
      if factor == MAX_UINT32 && limitMajor < MAX_UINT32 {
        assert limitPtn == 0 by { NoPartition(limitMajor); }
        forall k | k in old(m) ensures k in m { EmptyRange(k, startPtn); }
      }
      forall name: Bytes, path: Hex, ver: Version | factor < MAX_UINT32 && Plain(path)
        && HistNodeKey(factor, name, path, ver) in old(m)
        ensures var k := HistNodeKey(factor, name, path, ver);
                if startPtn <= Quot(ver.major, factor) < limitPtn then k !in m else k in m && m[k] == old(m)[k]
      {
        KeyInRange(factor, name, path, ver, startPtn, limitPtn);
      }
    }
  }

  lemma NoPartition(major: Uint32)
    requires major < MAX_UINT32
    ensures Quot(major, MAX_UINT32) == 0
  {
  }

  lemma EmptyRange(k: Bytes, s: Uint32)
    ensures !InRange(k, RangeKey(s), RangeKey(0))
  {
    hide Less, Uint32Bytes;
    Uint32Order(s, [], 0, []);
    assert Uint32Bytes(s) + [] == Uint32Bytes(s) && Uint32Bytes(0) + [] == Uint32Bytes(0);
    LessSameHead(HIST_SPACE, Uint32Bytes(s), Uint32Bytes(0));
    NothingBelowEmpty([]);
    if InRange(k, RangeKey(s), RangeKey(0)) { LessTransitive(RangeKey(0), RangeKey(s), k); }
  }

  lemma OtherSpaces(k: Bytes, s: Uint32, l: Uint32)
    requires k == [] || k[0] != HIST_SPACE
    ensures !InRange(k, RangeKey(s), RangeKey(l))
  {
  }

  lemma LessSameHead(x: Byte, a: Bytes, b: Bytes)
    ensures Less([x] + a, [x] + b) <==> Less(a, b)
  {
    assert ([x] + a)[1..] == a && ([x] + b)[1..] == b;
  }

  lemma DigitOrder(a3: Byte, a2: Byte, a1: Byte, a0: Byte, b3: Byte, b2: Byte, b1: Byte, b0: Byte)
    ensures JoinUint32(a3, a2, a1, a0) < JoinUint32(b3, b2, b1, b0) <==>
            a3 < b3 || (a3 == b3 && (a2 < b2 || (a2 == b2 && (a1 < b1 || (a1 == b1 && a0 < b0)))))
    ensures JoinUint32(a3, a2, a1, a0) == JoinUint32(b3, b2, b1, b0) <==> a3 == b3 && a2 == b2 && a1 == b1 && a0 == b0
  {
  }

  /** Fixed-width numbers are ordered as their bytes are. */
  lemma Uint32Order(a: Uint32, x: Bytes, b: Uint32, y: Bytes)
    ensures a < b ==> Less(Uint32Bytes(a) + x, Uint32Bytes(b) + y)
    ensures a == b ==> (Less(Uint32Bytes(a) + x, Uint32Bytes(b) + y) <==> Less(x, y))
    ensures a > b ==> !Less(Uint32Bytes(a) + x, Uint32Bytes(b) + y)
  {
    hide Less, Uint32Bytes, JoinUint32;
    var ba, bb := Uint32Bytes(a), Uint32Bytes(b);
    assert ba + [] == ba && bb + [] == bb;
    Uint32RoundTrip(a, []);
    Uint32RoundTrip(b, []);
    DigitOrder(ba[0], ba[1], ba[2], ba[3], bb[0], bb[1], bb[2], bb[3]);
    assert ba + x == [ba[0]] + ([ba[1]] + ([ba[2]] + ([ba[3]] + x)));
    assert bb + y == [bb[0]] + ([bb[1]] + ([bb[2]] + ([bb[3]] + y)));
    LessHeads(ba[0], [ba[1]] + ([ba[2]] + ([ba[3]] + x)), bb[0], [bb[1]] + ([bb[2]] + ([bb[3]] + y)));
    LessHeads(ba[1], [ba[2]] + ([ba[3]] + x), bb[1], [bb[2]] + ([bb[3]] + y));
    LessHeads(ba[2], [ba[3]] + x, bb[2], [bb[3]] + y);
    LessHeads(ba[3], x, bb[3], y);
  }

  lemma LessHeads(p: Byte, a: Bytes, q: Byte, b: Bytes)
    ensures Less([p] + a, [q] + b) <==> p < q || (p == q && Less(a, b))
  {
    assert ([p] + a)[1..] == a && ([q] + b)[1..] == b;
  }

  lemma KeyInRange(factor: Uint32, name: Bytes, path: Hex, ver: Version, s: Uint32, l: Uint32)
    requires 0 < factor < MAX_UINT32 && Plain(path)
    ensures InRange(HistNodeKey(factor, name, path, ver), RangeKey(s), RangeKey(l))
            <==> s <= Quot(ver.major, factor) < l
  {
    hide NodePath, ModBytes, MinorBytes, Uint32Bytes, Less, Quot, Rem;
    var ptn := Quot(ver.major, factor);
    var tail := name + NodePath(path) + ModBytes(factor, Rem(ver.major, factor)) + MinorBytes(ver.minor);
    assert HistNodeKey(factor, name, path, ver) == [HIST_SPACE] + (Uint32Bytes(ptn) + tail);
    assert Uint32Bytes(s) + [] == Uint32Bytes(s) && Uint32Bytes(l) + [] == Uint32Bytes(l);
    LessSameHead(HIST_SPACE, Uint32Bytes(ptn) + tail, Uint32Bytes(s));
    LessSameHead(HIST_SPACE, Uint32Bytes(ptn) + tail, Uint32Bytes(l));
    Uint32Order(ptn, tail, s, []);
    Uint32Order(ptn, tail, l, []);
    NothingBelowEmpty(tail);
  }

  lemma NothingBelowEmpty(a: Bytes)
    ensures !Less(a, [])
  {
  }

  /** A node whose major version reaches the limit is never pruned. */
  lemma LimitIsSafe(factor: Uint32, major: Uint32, limit: Uint32)
    requires factor > 0 && limit <= major
    ensures !(Quot(major, factor) < Quot(limit, factor))
  {
    QuotMono(limit, major, factor);
  }
}
