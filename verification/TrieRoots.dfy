/**
 The bytes behind root hashes (trie/hasher.go, trie/node.go:407-453): what is hashed for a tree, down to the byte.
 */
module TrieRoots {
  import opened ByteStrings
  import opened HexPrefix
  import opened TrieTree
  import opened TrieMerkle
  import Rlp

  /** The root of the empty trie is the hash of the empty RLP string. */
  lemma EmptyRoot(h: HashFn)
    ensures RootHash(h, TNil) == h([0x80])
  {
    assert Rlp.Encode(Rlp.Str([])) == [0x80];
  }

  /** A child is embedded if its encoding is shorter than 32 bytes, else its hash stands for it behind 0xa0. */
  lemma ChildBytes(h: HashFn, t: Tree)
    requires Hash32(h) && Node(t)
    ensures Rlp.Encode(ItemOf(h, t)) == if |Enc(h, t)| < 32 then Enc(h, t) else [0xa0] + h(Enc(h, t))
  {
  }

  /** What is hashed for a single key: the list of its compact form and its value. */
  lemma LeafRoot(h: HashFn, k: Hex, v: Bytes, meta: Bytes)
    requires Terminated(k) && v != []
    ensures RootHash(h, TShort(k, TVal(v, meta))) ==
            h(Rlp.Encode(Rlp.List(Rlp.Encode(Rlp.Str(HexToCompact(k))) + Rlp.Encode(Rlp.Str(v)))))
  {
    var t := TShort(k, TVal(v, meta));
    assert ItemOf(h, t.child) == Rlp.Str(v);
    assert Payload(h, t) == Rlp.Encode(Rlp.Str(HexToCompact(k))) + Rlp.Encode(Rlp.Str(v));
  }

  /** The children of a full node follow one another from the first to the one for the terminator. */
  lemma OneChild(h: HashFn, t: Tree, i: nat)
    requires t.TFull? && Node(t) && i < 17
    ensures Payload(h, t) == Items(h, t, 0) && Items(h, t, 17) == []
    ensures Items(h, t, i) == Rlp.Encode(ItemOf(h, t.children[i])) + Items(h, t, i + 1)
  {
  }

  function Nils(n: nat): Bytes { if n == 0 then [] else [0x80] + Nils(n - 1) }

  /** A run of missing children is a run of empty strings. */
  lemma {:induction false} NilRun(h: HashFn, t: Tree, i: nat, n: nat)
    requires t.TFull? && Node(t) && i + n <= 17 && forall k :: i <= k < i + n ==> t.children[k].TNil?
    ensures Items(h, t, i) == Nils(n) + Items(h, t, i + n)
    decreases n
  {
    hide Node, Items, Payload, ItemOf;
    if n > 0 {
      NilItem(h, t, i);
      NilRun(h, t, i + 1, n - 1);
    }
  }

  lemma NilItem(h: HashFn, t: Tree, i: nat)
    requires t.TFull? && Node(t) && i < 17 && t.children[i].TNil?
    ensures Items(h, t, i) == [0x80] + Items(h, t, i + 1)
  {
    OneChild(h, t, i);
    assert Rlp.Encode(Rlp.Str([])) == [0x80];
  }

  // ---- two tries in full ----

  /** The leaf below the fork of a key of one byte. */
  lemma LastLeaf(h: HashFn, v: Byte, t: Tree)
    requires 0 < v < 0x80 && t == TShort([16], TVal([v], []))
    ensures Node(t) && Enc(h, t) == [0xc2, 0x20, v]
  {
    assert HexToCompact([16]) == [0x20] by { assert Body([16]) == []; }
    assert Payload(h, t) == [0x20, v];
  }

  /** A fork into two keys that end below the nibbles 2 and 5. */
  ghost predicate Fork(t: Tree, v: Byte, w: Byte) {
    && t.TFull? && |t.children| == 17
    && t.children[2] == TShort([16], TVal([v], [])) && t.children[5] == TShort([16], TVal([w], []))
    && forall k :: 0 <= k < 17 && k != 2 && k != 5 ==> t.children[k].TNil?
  }

  lemma ForkNode(t: Tree, v: Byte, w: Byte)
    requires v > 0 && w > 0 && Fork(t, v, w)
    ensures Node(t)
  {
    assert !t.children[2].TNil? && !t.children[5].TNil?;
  }

  lemma EmbeddedItem(h: HashFn, t: Tree)
    requires Node(t) && |Enc(h, t)| < 32
    ensures Rlp.Encode(ItemOf(h, t)) == Enc(h, t)
  {
  }

  lemma ForkPayload(h: HashFn, t: Tree, v: Byte, w: Byte)
    requires 0 < v < 0x80 && 0 < w < 0x80 && Fork(t, v, w)
    ensures Node(t) && Payload(h, t) == Nils(2) + ([0xc2, 0x20, v] + (Nils(2) + ([0xc2, 0x20, w] + Nils(11))))
  {
    hide Enc, Node, ItemOf, Items, Payload, Nils, Rlp.Encode;
    ForkNode(t, v, w);
    LastLeaf(h, v, t.children[2]);
    LastLeaf(h, w, t.children[5]);
    EmbeddedItem(h, t.children[2]);
    EmbeddedItem(h, t.children[5]);
    NilRun(h, t, 0, 2);
    OneChild(h, t, 2);
    NilRun(h, t, 3, 2);
    OneChild(h, t, 5);
    NilRun(h, t, 6, 11);
    assert Nils(11) + [] == Nils(11);
  }

  /** One key, of any length and with any value: what its trie hashes. */
  lemma RootOfOne(h: HashFn, key: Bytes, v: Bytes, meta: Bytes, t: Tree)
    requires v != [] && WellFormed(t) && Agrees(t, map[KeybytesToHex(key) := Entry(v, meta)])
    ensures RootHash(h, t) ==
            h(Rlp.Encode(Rlp.List(Rlp.Encode(Rlp.Str(HexToCompact(KeybytesToHex(key)))) + Rlp.Encode(Rlp.Str(v)))))
  {
    var k := KeybytesToHex(key);
    var leaf := TShort(k, TVal(v, meta));
    forall x: Hex ensures Lookup(leaf, x) == Find(map[k := Entry(v, meta)], x) {
      if k <= x && x[|k|..] == [] { assert x == k + x[|k|..]; }
      if x == k { assert x[|k|..] == []; }
    }
    OneTreePerMap(t, leaf, map[k := Entry(v, meta)]);
    LeafRoot(h, k, v, meta);
  }

  lemma KeyOfByte(hi: Nibble, lo: Nibble)
    requires hi < 16 && lo < 16
    ensures KeybytesToHex([Join(hi, lo)]) == [hi, lo, 16]
  {
    var b: Byte := Join(hi, lo);
    JoinSplit(hi, lo);
    assert Unpack([b]) == [hi, lo];
  }

  /** The key 0x12 with the value 1. */
  lemma RootOfOneExample(h: HashFn, t: Tree)
    requires WellFormed(t) && Agrees(t, map[KeybytesToHex([0x12]) := Entry([0x01], [])])
    ensures RootHash(h, t) == h([0xc4, 0x82, 0x20, 0x12, 0x01])
  {
    KeyOfByte(1, 2);
    RootOfOne(h, [0x12], [0x01], [], t);
    assert HexToCompact([1, 2, 16]) == [0x20, 0x12] by { assert Body([1, 2, 16]) == [1, 2]; }
    assert Rlp.Encode(Rlp.Str([0x20, 0x12])) == [0x82, 0x20, 0x12] && Rlp.Encode(Rlp.Str([0x01])) == [0x01];
    assert Rlp.Encode(Rlp.List([0x82, 0x20, 0x12] + [0x01])) == [0xc4, 0x82, 0x20, 0x12, 0x01];
  }

  function TwoKeys(v: Byte, w: Byte): Contents {
    map[KeybytesToHex([0x12]) := Entry([v], []), KeybytesToHex([0x15]) := Entry([w], [])]
  }

  lemma LastLookup(v: Byte, k: Hex)
    ensures Lookup(TShort([16], TVal([v], [])), k) == if k == [16] then Some(Entry([v], [])) else None
  {
    if [16] <= k && k[1..] == [] { assert k == [16] + k[1..]; }
  }

  lemma ForkLookup(t: Tree, v: Byte, w: Byte, k: Hex)
    requires Fork(t, v, w)
    ensures Lookup(t, k) ==
            if k == [2, 16] then Some(Entry([v], [])) else if k == [5, 16] then Some(Entry([w], [])) else None
  {
    if k != [] {
      assert k == [k[0]] + k[1..];
      LastLookup(v, k[1..]);
      LastLookup(w, k[1..]);
    }
  }

  lemma TwoAgree(t: Tree, v: Byte, w: Byte)
    requires Fork(t, v, w)
    ensures Agrees(TShort([1], t), TwoKeys(v, w))
  {
    hide Fork;
    KeyOfByte(1, 2);
    KeyOfByte(1, 5);
    forall k: Hex ensures Lookup(TShort([1], t), k) == Find(TwoKeys(v, w), k) {
      if [1] <= k {
        assert k == [1] + k[1..];
        ForkLookup(t, v, w, k[1..]);
        assert k[1..] == [2, 16] <==> k == [1, 2, 16];
        assert k[1..] == [5, 16] <==> k == [1, 5, 16];
      }
    }
  }

  /** The keys 0x12 and 0x15, whose nibbles fork after the first: a short node, a full node, two leaves. */
  lemma RootOfTwoExample(h: HashFn, v: Byte, w: Byte, t: Tree)
    requires 0 < v < 0x80 && 0 < w < 0x80 && WellFormed(t) && Agrees(t, TwoKeys(v, w))
    ensures RootHash(h, t) ==
            h([0xd7, 0x11, 0xd5, 0x80, 0x80, 0xc2, 0x20, v, 0x80, 0x80, 0xc2, 0x20, w] +
              [0x80, 0x80, 0x80, 0x80, 0x80, 0x80, 0x80, 0x80, 0x80, 0x80, 0x80])
  {
    var none := seq(17, _ => TNil);
    var fork := TFull(none[2 := TShort([16], TVal([v], []))][5 := TShort([16], TVal([w], []))]);
    assert Fork(fork, v, w);
    hide Fork, Enc, Payload, RootHash, Lookup, TwoKeys;
    TwoAgree(fork, v, w);
    ForkNode(fork, v, w);
    OneTreePerMap(t, TShort([1], fork), TwoKeys(v, w));
    ForkRoot(h, fork, v, w);
  }

  lemma ElevenNils()
    ensures Nils(2) == [0x80, 0x80]
    ensures Nils(11) == [0x80, 0x80, 0x80, 0x80, 0x80, 0x80, 0x80, 0x80, 0x80, 0x80, 0x80]
  {
    assert Nils(4) == [0x80, 0x80, 0x80, 0x80];
    assert Nils(8) == [0x80, 0x80, 0x80, 0x80] + Nils(4);
  }

  lemma ForkEnc(h: HashFn, t: Tree, v: Byte, w: Byte)
    requires 0 < v < 0x80 && 0 < w < 0x80 && Fork(t, v, w) && Node(t)
    ensures Enc(h, t) == [0xd5, 0x80, 0x80, 0xc2, 0x20, v, 0x80, 0x80, 0xc2, 0x20, w] +
                         [0x80, 0x80, 0x80, 0x80, 0x80, 0x80, 0x80, 0x80, 0x80, 0x80, 0x80]
  {
    hide Fork, Node, Payload;
    ForkPayload(h, t, v, w);
    ElevenNils();
    assert |Payload(h, t)| == 21;
  }

  /** A short node of the nibble 1 over an embedded full node of 22 bytes. */
  lemma ShortOver(h: HashFn, t: Tree)
    requires Node(t) && t.TFull? && |Enc(h, t)| == 22
    ensures Node(TShort([1], t)) && Enc(h, TShort([1], t)) == [0xd7, 0x11] + Enc(h, t)
  {
    hide HexToCompact, Node, Payload, Enc;
    OddOne();
    ShortPayload(h, t);
    assert |Payload(h, TShort([1], t))| == 23;
  }

  lemma OddOne()
    ensures HexToCompact([1]) == [0x11] && Rlp.Encode(Rlp.Str([0x11])) == [0x11]
  {
    assert Body([1]) == [1];
  }

  lemma ShortPayload(h: HashFn, t: Tree)
    requires Node(t) && t.TFull? && |Enc(h, t)| < 32
    ensures Node(TShort([1], t)) && Payload(h, TShort([1], t)) == Rlp.Encode(Rlp.Str(HexToCompact([1]))) + Enc(h, t)
    ensures Enc(h, TShort([1], t)) == Rlp.Encode(Rlp.List(Payload(h, TShort([1], t))))
  {
    EmbeddedItem(h, t);
  }

  lemma ForkRoot(h: HashFn, t: Tree, v: Byte, w: Byte)
    requires 0 < v < 0x80 && 0 < w < 0x80 && Fork(t, v, w) && Node(t)
    ensures Node(TShort([1], t)) && RootHash(h, TShort([1], t)) ==
            h([0xd7, 0x11, 0xd5, 0x80, 0x80, 0xc2, 0x20, v, 0x80, 0x80, 0xc2, 0x20, w] +
              [0x80, 0x80, 0x80, 0x80, 0x80, 0x80, 0x80, 0x80, 0x80, 0x80, 0x80])
  {
    hide Node, Enc;
    ForkEnc(h, t, v, w);
    ShortOver(h, t);
    assert Enc(h, TShort([1], t)) ==
           [0xd7, 0x11, 0xd5, 0x80, 0x80, 0xc2, 0x20, v, 0x80, 0x80, 0xc2, 0x20, w] +
           [0x80, 0x80, 0x80, 0x80, 0x80, 0x80, 0x80, 0x80, 0x80, 0x80, 0x80];
  }
}
