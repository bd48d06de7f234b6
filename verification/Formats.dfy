/** The byte layout of stored nodes and of their keys (trie/node.go, trie/vp.go, muxdb/backend.go). */
module Formats {
  import opened ByteStrings
  import opened HexPrefix
  import opened TrieNode
  import opened NodeKeys

  // ---- stored nodes ----

  /** A ref: kind 3, then one bit each for hash, major and minor version, then those of them that are there. */
  lemma RefBytes(r: Ref, skipHash: bool)
    ensures var (major, minor) := (r.ver.major, r.ver.minor);
            EncodeRef(r, skipHash) ==
              [3 + (if skipHash then 0 else 8) + (if major == 0 then 0 else 16) + if minor == 0 then 0 else 32]
              + (if skipHash then [] else r.hash)
              + (if major == 0 then [] else Uint32Bytes(major)) + if minor == 0 then [] else Uint32Bytes(minor)
  {
  }

  /** A value: kind 4, a bit for metadata, and the two strings behind their lengths. */
  lemma ValueBytes(val: Bytes, meta: Bytes, skipHash: bool)
    requires |val| < TWO64 && |meta| < TWO64
    ensures Encode(Value(val, meta), skipHash) ==
            if meta == [] then [4] + Uvarint(|val|) + val
            else [68] + Uvarint(|val|) + val + Uvarint(|meta|) + meta
  {
    var v, m := Uvarint(|val|) + val, Uvarint(|meta|) + meta;
    assert [68] + (v + m) == [68] + Uvarint(|val|) + val + Uvarint(|meta|) + meta;
    assert Uvarint(|val|) + val + [] == Uvarint(|val|) + val;
    assert [4] + (Uvarint(|val|) + val) == [4] + Uvarint(|val|) + val;
  }

  /** A leaf: kind 2 and a bit for metadata, the compact key behind its length, then as a value. */
  lemma LeafBytes(k: Hex, val: Bytes, meta: Bytes, f: Flags, skipHash: bool)
    requires Terminated(k) && Encodable(Short(k, Value(val, meta), f), skipHash)
    ensures Encode(Short(k, Value(val, meta), f), skipHash) ==
            [if meta == [] then 2 else 66] + (Uvarint(|HexToCompact(k)|) + HexToCompact(k))
            + (Uvarint(|val|) + val + if meta == [] then [] else Uvarint(|meta|) + meta)
  {
    hide HexToCompact, Uvarint;
  }

  /** A short node that is no leaf: kind 2, the compact key behind its length, the child. */
  lemma ExtensionBytes(k: Hex, c: Node, f: Flags, skipHash: bool)
    requires Encodable(Short(k, c, f), skipHash) && EncodableChild(c, skipHash) && !HasTerm(k)
    ensures Encode(Short(k, c, f), skipHash) ==
            [2] + (Uvarint(|HexToCompact(k)|) + HexToCompact(k)) +
            if Clean(c) then EncodeRef(c.flags.ref, skipHash) else Encode(c, skipHash)
  {
    hide HexToCompact, Uvarint, EncodeRef;
  }

  /** Which children are refs. */
  function Refs(cs: seq<Node>): seq<bool> { seq(|cs|, i requires 0 <= i < |cs| => cs[i].RefNode?) }

  lemma {:induction false} CountRefsIs(cs: seq<Node>)
    ensures CountRefs(cs) == multiset(Refs(cs))[true]
  {
    if cs != [] {
      CountRefsIs(cs[1..]);
      assert Refs(cs) == [cs[0].RefNode?] + Refs(cs[1..]);
    }
  }

  /** A full node: kind 1, a bit if more than four children are refs, then the children in their order. */
  lemma FullBytes(cs: seq<Node>, f: Flags, skipHash: bool)
    requires Encodable(Full(cs, f), skipHash)
    ensures Encode(Full(cs, f), skipHash) ==
            [if multiset(Refs(cs))[true] > 4 then 129 else 1] + EncodeChildren(cs, skipHash)
  {
    CountRefsIs(cs);
    hide CountRefs;
  }

  lemma ChildBytes(cs: seq<Node>, skipHash: bool)
    requires cs != [] && forall i :: 0 <= i < |cs| ==> EncodableChild(cs[i], skipHash)
    ensures EncodeChildren([], skipHash) == []
    ensures EncodeChildren(cs, skipHash) ==
            (match cs[0]
             case Nil => [0]
             case c => if Clean(c) then EncodeRef(c.flags.ref, skipHash) else Encode(c, skipHash))
            + EncodeChildren(cs[1..], skipHash)
  {
    hide EncodeRef;
  }

  // ---- keys ----

  /** The major version within its partition, big-endian, in as many bytes as the partition factor needs. */
  lemma ModBytesIs(factor: Uint32, mod: Uint32)
    requires mod < factor
    ensures var b := ModBytes(factor, mod);
            && |b| == (if factor <= 1 then 0 else if factor <= 0x100 then 1 else if factor <= 0x1_0000 then 2
                       else if factor <= 0x100_0000 then 3 else 4)
            && mod == match |b|
               case 0 => 0
               case 1 => b[0] as nat
               case 2 => 0x100 * (b[0] as nat) + b[1] as nat
               case 3 => 0x1_0000 * (b[0] as nat) + 0x100 * (b[1] as nat) + b[2] as nat
               case _ => 0x100_0000 * (b[0] as nat) + 0x1_0000 * (b[1] as nat) + 0x100 * (b[2] as nat) + b[3] as nat
  {
    Uint32Digits(mod);
  }

  /** Version 513.7 of the node at path 1, 2, 3 with partitions of 256. */
  lemma HistKeyExample(name: Bytes)
    ensures HistNodeKey(256, name, [1, 2, 3], Version(513, 7)) ==
            [0] + [0, 0, 0, 2] + name + [0x11, 0x22, 0x03, 0x01] + [1] + [7]
  {
    var path: Hex := [1, 2, 3];
    assert path[2..] == [3];
    assert NodePath(path) == [0x11, 0x22, 0x03, 0x01];
  }

  /** Two nibbles to two bytes: a mark if more follow, the first nibble, the second nibble, their number. */
  lemma PathBytes(path: Hex)
    requires Plain(path)
    ensures match |path|
            case 0 => NodePath(path) == [0, 0]
            case 1 => NodePath(path) == [0x00 + path[0], 0x01]
            case 2 => NodePath(path) == [0x00 + path[0], 16 * (path[1] as nat) + 0x02]
            case _ => NodePath(path) == [0x10 + (path[0] as nat), 16 * (path[1] as nat) + 0x02] + NodePath(path[2..])
  {
  }
}
