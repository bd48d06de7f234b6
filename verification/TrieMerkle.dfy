/**
 The Merkle root of a tree (Appendix D of the Ethereum Yellow Paper).  The hash function is a
 parameter; nothing is assumed of it but its 32-byte length, and for the binding result that it does
 not collide on the encodings at hand.
 */
module TrieMerkle {
  import opened ByteStrings
  import opened HexPrefix
  import opened TrieTree
  import Rlp

  type HashFn = Bytes -> Bytes

  ghost predicate Hash32(h: HashFn) { forall b :: |h(b)| == 32 }

  /** The consensus encoding of a short or full node. */
  function Enc(h: HashFn, t: Tree): (b: Bytes)
    requires Node(t)
    ensures |b| > 0
    decreases t, 2
  {
    Rlp.Encode(Rlp.List(Payload(h, t)))
  }

  function Payload(h: HashFn, t: Tree): Bytes
    requires Node(t)
    decreases t, 1
  {
    match t
    case TShort(key, c) => Rlp.Encode(Rlp.Str(HexToCompact(key))) + Rlp.Encode(ItemOf(h, c))
    case TFull(cs) => Items(h, t, 0)
  }

  /** How a child appears in its parent: by hash once its encoding reaches 32 bytes, in full below. */
  function ItemOf(h: HashFn, t: Tree): Rlp.Item
    requires t.TNil? || IsVal(t) || Node(t)
    decreases t, 3
  {
    match t
    case TNil => Rlp.Str([])
    case TVal(v, _) => Rlp.Str(v)
    case _ => if |Enc(h, t)| >= 32 then Rlp.Str(h(Enc(h, t))) else Rlp.List(Payload(h, t))
  }

  /** The items of a full node from child i on. */
  function Items(h: HashFn, t: Tree, i: nat): Bytes
    requires t.TFull? && Node(t) && i <= 17
    decreases t, 0, 17 - i
  {
    if i == 17 then [] else Rlp.Encode(ItemOf(h, t.children[i])) + Items(h, t, i + 1)
  }

  function RootHash(h: HashFn, t: Tree): Bytes
    requires WellFormed(t)
  {
    if t.TNil? then h(Rlp.Encode(Rlp.Str([]))) else h(Enc(h, t))
  }

  // ---- the root does not see the metadata ----

  function StripMeta(t: Tree): Tree
    decreases t
  {
    match t
    case TNil => t
    case TVal(v, _) => TVal(v, [])
    case TShort(key, c) => TShort(key, StripMeta(c))
    case TFull(cs) => TFull(seq(|cs|, i requires 0 <= i < |cs| => StripMeta(cs[i])))
  }

  function ValOf(e: Option<Entry>): Option<Bytes> { if e.Some? then Some(e.value.val) else None }

  ghost predicate SameVals(a: Tree, b: Tree) { forall k: Hex :: ValOf(Lookup(a, k)) == ValOf(Lookup(b, k)) }

  lemma {:induction false} StripLookup(t: Tree, k: Hex)
    ensures Lookup(StripMeta(t), k) ==
            match Lookup(t, k) case None => None case Some(e) => Some(Entry(e.val, []))
    decreases t
  {
    match t
    case TNil =>
    case TVal(_, _) =>
    case TShort(key, c) => if key <= k { StripLookup(c, k[|key|..]); }
    case TFull(cs) => if k != [] && k[0] < |cs| { StripLookup(cs[k[0]], k[1..]); }
  }

  lemma StripNil(t: Tree)
    ensures StripMeta(t).TNil? <==> t.TNil?
  {
  }

  lemma {:induction false} StripNode(t: Tree)
    ensures Node(t) ==> Node(StripMeta(t))
    ensures IsVal(t) ==> IsVal(StripMeta(t))
    decreases t
  {
    match t
    case TNil =>
    case TVal(_, _) =>
    case TShort(key, c) => StripNode(c);
    case TFull(cs) =>
      if Node(t) {
        var cs' := StripMeta(t).children;
        assert |cs'| == |cs| == 17;
        forall i | 0 <= i < 17 ensures cs'[i] == StripMeta(cs[i]) && (cs'[i].TNil? <==> cs[i].TNil?) {
          StripNil(cs[i]);
        }
        forall i | 0 <= i < 16 ensures cs'[i].TNil? || Node(cs'[i]) { StripNode(cs[i]); }
        StripNode(cs[16]);
        var i, j :| 0 <= i < j < |cs| && !cs[i].TNil? && !cs[j].TNil?;
        assert !cs'[i].TNil? && !cs'[j].TNil?;
      }
  }

  lemma {:induction false} PayloadIgnoresMeta(h: HashFn, t: Tree)
    requires Node(t)
    ensures Node(StripMeta(t)) && Payload(h, StripMeta(t)) == Payload(h, t)
    decreases t, 1
  {
    StripNode(t);
    match t
    case TShort(key, c) => ItemIgnoresMeta(h, c);
    case TFull(cs) => ItemsIgnoreMeta(h, t, 0);
  }

  lemma {:induction false} ItemIgnoresMeta(h: HashFn, t: Tree)
    requires t.TNil? || IsVal(t) || Node(t)
    ensures var t' := StripMeta(t);
            (t'.TNil? || IsVal(t') || Node(t')) && ItemOf(h, t') == ItemOf(h, t)
    decreases t, 2
  {
    StripNode(t);
    if Node(t) { PayloadIgnoresMeta(h, t); }
  }

  lemma {:induction false} ItemsIgnoreMeta(h: HashFn, t: Tree, i: nat)
    requires t.TFull? && Node(t) && i <= 17
    ensures Node(StripMeta(t)) && Items(h, StripMeta(t), i) == Items(h, t, i)
    decreases t, 0, 17 - i
  {
    StripNode(t);
    if i < 17 {
      ItemIgnoresMeta(h, t.children[i]);
      ItemsIgnoreMeta(h, t, i + 1);
    }
  }

  /** The root hash depends only on the map from keys to values: not on shape, history or metadata. */
  lemma RootOfMap(h: HashFn, a: Tree, b: Tree)
    requires WellFormed(a) && WellFormed(b) && SameVals(a, b)
    ensures RootHash(h, a) == RootHash(h, b)
  {
    forall k: Hex ensures Lookup(StripMeta(a), k) == Lookup(StripMeta(b), k) {
      StripLookup(a, k);
      StripLookup(b, k);
      assert ValOf(Lookup(a, k)) == ValOf(Lookup(b, k));
    }
    StripNode(a);
    StripNode(b);
    Canonical(StripMeta(a), StripMeta(b));
    if !a.TNil? { PayloadIgnoresMeta(h, a); }
    if !b.TNil? { PayloadIgnoresMeta(h, b); }
  }

  // ---- the root binds the map ----

  /** The encodings whose hashes a root depends on, and the one it is the hash of. */
  function Preimages(h: HashFn, t: Tree): set<Bytes>
    requires t.TNil? || IsVal(t) || Node(t)
    decreases t
  {
    match t
    case TNil => {Rlp.Encode(Rlp.Str([]))}
    case TVal(_, _) => {}
    case TShort(_, c) => {Enc(h, t)} + Preimages(h, c)
    case TFull(cs) => {Enc(h, t)} + set i, b | 0 <= i < 17 && b in Preimages(h, cs[i]) :: b
  }

  ghost predicate NoCollision(h: HashFn, s: set<Bytes>) {
    forall x, y :: x in s && y in s && h(x) == h(y) ==> x == y
  }

  /** Every encoding in the tree is short enough to have an RLP header. */
  predicate Encodable(h: HashFn, t: Tree)
    requires t.TNil? || IsVal(t) || Node(t)
    decreases t
  {
    match t
    case TNil => true
    case TVal(v, _) => |v| < TWO64
    case TShort(key, c) => |Payload(h, t)| < TWO64 && |HexToCompact(key)| < TWO64 && Encodable(h, c)
    case TFull(cs) => |Payload(h, t)| < TWO64 && forall i :: 0 <= i < 17 ==> Encodable(h, cs[i])
  }

  lemma ItemFits(h: HashFn, t: Tree)
    requires Hash32(h) && (t.TNil? || IsVal(t) || Node(t)) && Encodable(h, t)
    ensures Rlp.Fits(ItemOf(h, t))
  {
  }

  ghost predicate Comparable(h: HashFn, a: Tree, b: Tree) {
    && Hash32(h)
    && (a.TNil? || IsVal(a) || Node(a)) && (b.TNil? || IsVal(b) || Node(b))
    && Encodable(h, a) && Encodable(h, b)
    && NoCollision(h, Preimages(h, a) + Preimages(h, b))
  }

  /** A child of a full node brings no encodings of its own. */
  lemma ChildOf(h: HashFn, t: Tree, i: nat)
    requires t.TFull? && Node(t) && Encodable(h, t) && i < 17
    ensures t.children[i].TNil? || (if i == 16 then IsVal(t.children[i]) else Node(t.children[i]))
    ensures Encodable(h, t.children[i]) && Preimages(h, t.children[i]) <= Preimages(h, t)
  {
    hide Payload, Enc;
    var c := t.children[i];
    forall b | b in Preimages(h, c) ensures b in Preimages(h, t) {}
  }

  lemma ChildrenComparable(h: HashFn, a: Tree, b: Tree, i: nat)
    requires Comparable(h, a, b) && a.TFull? && b.TFull? && i < 17
    ensures Comparable(h, a.children[i], b.children[i])
    ensures !(IsVal(a.children[i]) && Node(b.children[i])) && !(Node(a.children[i]) && IsVal(b.children[i]))
  {
    ChildOf(h, a, i);
    ChildOf(h, b, i);
    hide Encodable, Preimages, Payload, Enc;
  }

  lemma SameEncoding(h: HashFn, a: Tree, b: Tree)
    requires Node(a) && Node(b) && Encodable(h, a) && Encodable(h, b) && Enc(h, a) == Enc(h, b)
    ensures Payload(h, a) == Payload(h, b)
  {
    assert Enc(h, a) + [] == Enc(h, b) + [];
    Rlp.ItemsDelimit(Rlp.List(Payload(h, a)), Rlp.List(Payload(h, b)), [], []);
  }

  /** A short and a full node never share an encoding: one lists two items, the other seventeen. */
  lemma ShortAndFullDiffer(h: HashFn, a: Tree, b: Tree)
    requires a.TShort? && b.TFull? && Comparable(h, a, b)
    ensures Payload(h, a) != Payload(h, b)
  {
    if Payload(h, a) == Payload(h, b) {
      var key, c, cs := a.key, a.child, b.children;
      assert Items(h, b, 0) == Rlp.Encode(ItemOf(h, cs[0])) + Items(h, b, 1);
      assert Items(h, b, 1) == Rlp.Encode(ItemOf(h, cs[1])) + Items(h, b, 2);
      assert Items(h, b, 2) == Rlp.Encode(ItemOf(h, cs[2])) + Items(h, b, 3);
      ItemFits(h, c);
      ItemFits(h, cs[0]);
      ItemFits(h, cs[1]);
      Rlp.ItemsDelimit(Rlp.Str(HexToCompact(key)), ItemOf(h, cs[0]), Rlp.Encode(ItemOf(h, c)), Items(h, b, 1));
      assert Rlp.Encode(ItemOf(h, c)) + [] == Rlp.Encode(ItemOf(h, c));
      Rlp.ItemsDelimit(ItemOf(h, c), ItemOf(h, cs[1]), [], Items(h, b, 2));
    }
  }

  lemma {:induction false} PayloadBinds(h: HashFn, a: Tree, b: Tree)
    requires Comparable(h, a, b) && Node(a) && Node(b) && Payload(h, a) == Payload(h, b)
    ensures StripMeta(a) == StripMeta(b)
    decreases a, 1
  {
    hide Rlp.Encode, HexToCompact, ItemOf;
    if a.TShort? && b.TFull? {
      ShortAndFullDiffer(h, a, b);
    } else if a.TFull? && b.TShort? {
      ShortAndFullDiffer(h, b, a);
    } else if a.TShort? {
      ItemFits(h, a.child);
      ItemFits(h, b.child);
      Rlp.ItemsDelimit(Rlp.Str(HexToCompact(a.key)), Rlp.Str(HexToCompact(b.key)),
                       Rlp.Encode(ItemOf(h, a.child)), Rlp.Encode(ItemOf(h, b.child)));
      CompactInjective(a.key, b.key);
      assert Rlp.Encode(ItemOf(h, a.child)) + [] == Rlp.Encode(ItemOf(h, b.child)) + [];
      Rlp.ItemsDelimit(ItemOf(h, a.child), ItemOf(h, b.child), [], []);
      ItemBinds(h, a.child, b.child);
    } else {
      ItemsBind(h, a, b, 0);
    }
  }

  lemma {:induction false} ItemBinds(h: HashFn, a: Tree, b: Tree)
    requires Comparable(h, a, b) && ItemOf(h, a) == ItemOf(h, b)
    requires !(IsVal(a) && Node(b)) && !(Node(a) && IsVal(b))
    ensures StripMeta(a) == StripMeta(b)
    decreases a, 2
  {
    if Node(a) && Node(b) {
      if |Enc(h, a)| >= 32 {
        assert Enc(h, a) in Preimages(h, a) && Enc(h, b) in Preimages(h, b);
        SameEncoding(h, a, b);
      }
      PayloadBinds(h, a, b);
    }
  }

  lemma {:induction false} ItemsBind(h: HashFn, a: Tree, b: Tree, i: nat)
    requires Comparable(h, a, b) && a.TFull? && b.TFull? && i <= 17
    requires Items(h, a, i) == Items(h, b, i)
    ensures forall j :: i <= j < 17 ==> StripMeta(a.children[j]) == StripMeta(b.children[j])
    decreases a, 0, 17 - i
  {
    hide ItemOf, StripMeta, Encodable, Preimages, NoCollision, Rlp.Encode;
    if i < 17 {
      ChildrenComparable(h, a, b, i);
      ItemFits(h, a.children[i]);
      ItemFits(h, b.children[i]);
      Rlp.ItemsDelimit(ItemOf(h, a.children[i]), ItemOf(h, b.children[i]), Items(h, a, i + 1), Items(h, b, i + 1));
      ItemBinds(h, a.children[i], b.children[i]);
      ItemsBind(h, a, b, i + 1);
    }
  }

  lemma EmptyRootDiffers(h: HashFn, a: Tree, b: Tree)
    requires a.TNil? && Node(b) && Comparable(h, a, b)
    ensures RootHash(h, a) != RootHash(h, b)
  {
    assert Rlp.Encode(Rlp.Str([])) in Preimages(h, a) && Enc(h, b) in Preimages(h, b);
    Rlp.FirstByte(Rlp.Str([]));
    Rlp.FirstByte(Rlp.List(Payload(h, b)));
  }

  /** Unless the hash function collides on the encodings in the two trees, equal roots mean equal maps. */
  lemma RootBindsMap(h: HashFn, a: Tree, b: Tree)
    requires WellFormed(a) && WellFormed(b) && Comparable(h, a, b)
    ensures RootHash(h, a) == RootHash(h, b) <==> SameVals(a, b)
  {
    if SameVals(a, b) {
      RootOfMap(h, a, b);
    }
    if a.TNil? && !b.TNil? {
      EmptyRootDiffers(h, a, b);
    } else if !a.TNil? && b.TNil? {
      EmptyRootDiffers(h, b, a);
    } else if RootHash(h, a) == RootHash(h, b) && !a.TNil? {
      assert Enc(h, a) in Preimages(h, a) && Enc(h, b) in Preimages(h, b);
      SameEncoding(h, a, b);
      PayloadBinds(h, a, b);
      forall k: Hex ensures ValOf(Lookup(a, k)) == ValOf(Lookup(b, k)) {
        StripLookup(a, k);
        StripLookup(b, k);
      }
    }
  }
}
