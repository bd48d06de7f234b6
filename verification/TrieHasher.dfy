/**
 Hashing and storing nodes (trie/hasher.go).  The code caches hashes by writing into nodes; here a node
 with its hashes filled in is returned in place of the old one.
 */
module TrieHasher {
  import opened ByteStrings
  import opened HexPrefix
  import opened TrieNode
  import opened TrieTree
  import opened TrieMerkle
  import opened TrieStore
  import Rlp

  // ---- the consensus encoding of nodes in memory ----

  function CachedHash(n: Node): Bytes {
    match n
    case Full(_, f) => f.ref.hash
    case Short(_, _, f) => f.ref.hash
    case RefNode(r) => r.hash
    case _ => []
  }

  /** encodeConsensus */
  function Consensus(n: Node): Bytes
    decreases n, 1
  {
    match n
    case Nil => Rlp.Encode(Rlp.Str([]))
    case Value(v, _) => Rlp.Encode(Rlp.Str(v))
    case RefNode(r) => Rlp.Encode(Rlp.Str(r.hash))
    case Full(cs, _) => Rlp.Encode(Rlp.List(ConsensusItems(cs)))
    case Short(k, c, _) =>
      if !ValidHex(k) then [] else Rlp.Encode(Rlp.List(Rlp.Encode(Rlp.Str(HexToCompact(k))) + ConsensusItem(c)))
  }

  function ConsensusItem(c: Node): Bytes
    decreases c, 2
  {
    if CachedHash(c) != [] then Rlp.Encode(Rlp.Str(CachedHash(c))) else Consensus(c)
  }

  function ConsensusItems(cs: seq<Node>): Bytes
    decreases cs, 0
  {
    if cs == [] then [] else ConsensusItem(cs[0]) + ConsensusItems(cs[1..])
  }

  /** Every node that must appear by its hash has it cached. */
  ghost predicate Settled(h: HashFn, n: Node, t: Tree)
    decreases t
  {
    match n
    case Full(cs, f) =>
      f.ref.hash != [] ||
      (&& TrieTree.Node(t) && t.TFull? && |cs| == 17 && |Enc(h, t)| < 32
       && forall i :: 0 <= i < 17 ==> Settled(h, cs[i], t.children[i]))
    case Short(k, c, f) =>
      f.ref.hash != [] || (TrieTree.Node(t) && t.TShort? && |Enc(h, t)| < 32 && Settled(h, c, t.child))
    case _ => true
  }

  ghost predicate KidsSettled(h: HashFn, n: Node, t: Tree) {
    && (n.Full? && t.TFull? ==>
          |n.children| == |t.children| == 17 && forall i :: 0 <= i < 17 ==> Settled(h, n.children[i], t.children[i]))
    && (n.Short? && t.TShort? ==> Settled(h, n.child, t.child))
  }

  /** A settled child appears in its parent as the Merkle tree prescribes. */
  lemma {:induction false} ItemIsItem(e: Env, c: Node, p: Hex, t: Tree)
    requires e.hashed && Hash32(e.h) && p != [] && Rep(e, c, p, t) && Settled(e.h, c, t)
    requires t.TNil? || IsVal(t) || TrieTree.Node(t)
    ensures ConsensusItem(c) == Rlp.Encode(ItemOf(e.h, t))
    decreases t, 2
  {
    hide Loads, Rlp.Encode;
    if CachedHash(c) == [] && TrieTree.Node(t) {
      assert !c.RefNode?;
      ConsensusIsEnc(e, c, p, t);
    }
  }

  lemma {:induction false} ConsensusIsEnc(e: Env, n: Node, p: Hex, t: Tree)
    requires e.hashed && Hash32(e.h) && Rep(e, n, p, t) && TrieTree.Node(t)
    requires (n.Full? || n.Short?) && KidsSettled(e.h, n, t)
    ensures Consensus(n) == Enc(e.h, t)
    decreases t, 1
  {
    hide Loads, Rlp.Encode, Settled, ItemOf, RefOk, HexToCompact;
    match n
    case Short(k, c, _) => ItemIsItem(e, c, p + k, t.child);
    case Full(cs, _) =>
      ItemsAreItems(e, cs, p, t, 0);
      assert cs[0..] == cs;
  }

  lemma {:induction false} ItemsAreItems(e: Env, cs: seq<Node>, p: Hex, t: Tree, i: nat)
    requires e.hashed && Hash32(e.h) && t.TFull? && TrieTree.Node(t) && RepChildren(e, cs, p, t) && i <= 17
    requires forall i :: 0 <= i < 17 ==> Settled(e.h, cs[i], t.children[i])
    ensures ConsensusItems(cs[i..]) == Items(e.h, t, i)
    decreases t, 0, 17 - i
  {
    hide Loads, Rlp.Encode, Settled, ItemOf, RefOk, ConsensusItem;
    if i < 17 {
      assert cs[i..][1..] == cs[i + 1..];
      ItemIsItem(e, cs[i], p + [i], t.children[i]);
      ItemsAreItems(e, cs, p, t, i + 1);
    }
  }

  // ---- hashing ----

  function WithHash(f: Flags, hash: Bytes): Flags { f.(ref := f.ref.(hash := hash)) }

  lemma WithHashOk(e: Env, f: Flags, p: Hex, t: Tree)
    requires e.hashed && TrieTree.Node(t) && FlagsOk(e, f, p, t) && (p != [] ==> |Enc(e.h, t)| >= 32)
    requires Hash32(e.h)
    ensures FlagsOk(e, WithHash(f, e.h(Enc(e.h, t))), p, t)
  {
  }

  lemma CachedHashIsHash(e: Env, n: Node, p: Hex, t: Tree)
    requires e.hashed && Rep(e, n, p, t) && CachedHash(n) != []
    ensures TrieTree.Node(t) && CachedHash(n) == e.h(Enc(e.h, t)) && (p != [] ==> |Enc(e.h, t)| >= 32)
  {
  }

  lemma RefIsHashed(e: Env, r: Ref, p: Hex, t: Tree)
    requires e.hashed && Hash32(e.h) && Rep(e, RefNode(r), p, t)
    ensures |r.hash| == 32
  {
  }

  /** What hash promises: the tree is kept, the node is settled, and the hash is the Merkle hash or nothing. */
  ghost predicate HashDone(e: Env, n': Node, hash: Bytes, force: bool, p: Hex, t: Tree) {
    && Rep(e, n', p, t) && Settled(e.h, n', t)
    && (TrieTree.Node(t) ==>
          if force || |Enc(e.h, t)| >= 32 then hash == e.h(Enc(e.h, t))
          else hash == [] || (p == [] && hash == e.h(Enc(e.h, t))))
  }

  lemma ChildOfFull(e: Env, cs: seq<Node>, p: Hex, t: Tree, i: nat)
    requires t.TFull? && TrieTree.Node(t) && RepChildren(e, cs, p, t) && i < 16 && !cs[i].Nil?
    ensures TrieTree.Node(t.children[i])
  {
    NilIffNil(e, cs[i], p + [i], t.children[i]);
  }

  lemma LastSettled(e: Env, cs: seq<Node>, p: Hex, t: Tree)
    requires t.TFull? && TrieTree.Node(t) && RepChildren(e, cs, p, t)
    ensures Settled(e.h, cs[16], t.children[16])
  {
    assert Rep(e, cs[16], p + [16], t.children[16]);
  }

  method HashNode(h: HashFn, n: Node, force: bool, ghost e: Env, ghost p: Hex, ghost t: Tree)
    returns (n': Node, hash: Bytes)
    requires h == e.h && Hash32(h) && e.hashed && Rep(e, n, p, t) && (force ==> p == [])
    requires IsVal(t) || TrieTree.Node(t)
    ensures HashDone(e, n', hash, force, p, t)
    ensures (n.Full? <==> n'.Full?) && (n.Short? <==> n'.Short?)
    decreases n
  {
    hide Loads, RefOk, FlagsOk, Rlp.Encode, HexToCompact, Consensus, Enc;
    if n.RefNode? { RefIsHashed(e, n.ref, p, t); }
    if CachedHash(n) != [] {
      CachedHashIsHash(e, n, p, t);
      return n, CachedHash(n);
    }
    match n {
      case Full(cs, f) =>
        var cs' := cs;
        for i := 0 to 16
          invariant RepChildren(e, cs', p, t) && |cs'| == |cs|
          invariant forall j :: i <= j < 17 ==> cs'[j] == cs[j]
          invariant forall j :: 0 <= j < i ==> Settled(h, cs'[j], t.children[j])
        {
          if !cs[i].Nil? {
            ChildOfFull(e, cs, p, t, i);
            var c, _ := HashNode(h, cs[i], false, e, p + [i], t.children[i]);
            cs' := cs'[i := c];
          }
        }
        LastSettled(e, cs', p, t);
        n' := Full(cs', f);
      case Short(k, c, f) =>
        var c', _ := HashNode(h, c, false, e, p + k, t.child);
        n' := Short(k, c', f);
      case _ =>
        n' := n;
        hash := [];
        return;
    }
    ConsensusIsEnc(e, n', p, t);
    var buf := Consensus(n');
    if |buf| >= 32 || force {
      hash := h(buf);
      WithHashOk(e, n'.flags, p, t);
      n' := n'.(flags := WithHash(n'.flags, hash));
    } else {
      hash := [];
    }
  }

  // ---- storing ----

  /** Sizes that survive the storage format, whose key lengths are narrowed to 32 bits. */
  predicate Sized(t: Tree)
    decreases t
  {
    match t
    case TNil => true
    case TVal(v, m) => |v| < TWO64 && |m| < TWO64
    case TShort(k, c) => CompactLen(k) < 0x1_0000_0000 && Sized(c)
    case TFull(cs) => forall i :: 0 <= i < |cs| ==> Sized(cs[i])
  }

  lemma {:induction false} ChildEncodable(e: Env, c: Node, p: Hex, t: Tree)
    requires Hash32(e.h) && p != [] && Rep(e, c, p, t) && Sized(t)
    requires t.TNil? || IsVal(t) || TrieTree.Node(t)
    ensures EncodableChild(c, !e.hashed)
    decreases t, 2
  {
    hide Loads, Enc, HexToCompact;
    if !Clean(c) && (c.Full? || c.Short?) { NodeEncodable(e, c, p, t); }
  }

  lemma {:induction false} NodeEncodable(e: Env, n: Node, p: Hex, t: Tree)
    requires Hash32(e.h) && Rep(e, n, p, t) && Sized(t) && TrieTree.Node(t) && (n.Full? || n.Short?)
    ensures TrieNode.Encodable(n, !e.hashed)
    decreases t, 1
  {
    hide Loads, Enc, HexToCompact, EncodableChild, RefOk, FlagsOk;
    match n
    case Short(k, c, _) =>
      ChildEncodable(e, c, p + k, t.child);
      NilIffNil(e, c, p + k, t.child);
      if c.RefNode? { RefLeadsToNode(e, c.ref, p + k, t.child); }
    case Full(cs, _) =>
      forall i | 0 <= i < 17 ensures EncodableChild(cs[i], !e.hashed) {
        assert Rep(e, cs[i], p + [i], t.children[i]);
        ChildEncodable(e, cs[i], p + [i], t.children[i]);
      }
  }

  /** A stored node may be replaced by its ref. */
  lemma CleanAsRef(e: Env, c: Node, p: Hex, t: Tree)
    requires Hash32(e.h) && p != [] && Clean(c) && Rep(e, c, p, t)
    ensures Rep(e, RefNode(DropHash(c.flags.ref, !e.hashed)), p, t)
    ensures Rep(e, RefNode(c.flags.ref), p, t)
  {
  }

  /** What a node comes back as stands for the same tree. */
  lemma {:induction false} ReloadChildRep(e: Env, c: Node, p: Hex, t: Tree, gen: Uint16)
    requires Hash32(e.h) && p != [] && Rep(e, c, p, t)
    ensures Rep(e, ReloadChild(c, !e.hashed, gen), p, t)
    decreases t, 1
  {
    hide Loads, Enc;
    if Clean(c) {
      CleanAsRef(e, c, p, t);
    } else {
      match c
      case Full(cs, _) => ReloadChildrenRep(e, cs, p, t, gen);
      case Short(k, c', _) => ReloadChildRep(e, c', p + k, t.child, gen);
      case _ =>
    }
  }

  lemma {:induction false} ReloadChildrenRep(e: Env, cs: seq<Node>, p: Hex, t: Tree, gen: Uint16)
    requires Hash32(e.h) && t.TFull? && RepChildren(e, cs, p, t)
    ensures RepChildren(e, ReloadChildren(cs, !e.hashed, gen), p, t)
    decreases t, 0
  {
    forall i | 0 <= i < 17
      ensures Rep(e, ReloadChildren(cs, !e.hashed, gen)[i], p + [i], t.children[i])
    {
      ReloadChildRep(e, cs[i], p + [i], t.children[i], gen);
    }
  }

  /** A blob written for a node leads back to its tree. */
  lemma StoredLoads(e: Env, n: Node, p: Hex, ver: Version, t: Tree)
    requires Hash32(e.h) && Rep(e, n, p, t) && Sized(t) && TrieTree.Node(t) && (n.Full? || n.Short?)
    requires TrieNode.Encodable(n, !e.hashed)
    requires (p, ver) in e.db && e.db[(p, ver)] == Encode(n, !e.hashed)
    ensures Loads(e, p, ver, t)
  {
    hide Encode, FlagsOk, Enc, Reload, DecodeNode;
    var blob := e.db[(p, ver)];
    forall gen: Uint16
      ensures match DecodeNode(None, blob, gen)
              case Taken(Full(cs, _), _) => t.TFull? && RepChildren(e, cs, p, t)
              case Taken(Short(k, c, _), _) => k != [] && t.TShort? && t.key == k && Rep(e, c, p + k, t.child)
              case _ => false
    {
      NodeRoundTrip(n, !e.hashed, None, [], gen);
      assert blob + [] == blob;
      ReloadedRep(e, n, p, t, gen);
    }
  }

  lemma ReloadedRep(e: Env, n: Node, p: Hex, t: Tree, gen: Uint16)
    requires Hash32(e.h) && Rep(e, n, p, t) && TrieTree.Node(t) && (n.Full? || n.Short?)
    ensures match Reload(n, !e.hashed, None, gen)
            case Full(cs, _) => t.TFull? && RepChildren(e, cs, p, t)
            case Short(k, c, _) => k != [] && t.TShort? && t.key == k && Rep(e, c, p + k, t.child)
            case _ => false
  {
    hide FlagsOk, Loads, RefOk, ReloadChild;
    match n
    case Full(cs, _) => ReloadChildrenRep(e, cs, p, t, gen);
    case Short(k, c, _) => ReloadChildRep(e, c, p + k, t.child, gen);
  }

  /** The backing store of tries. */
  class NodeDb {
    var m: Db

    constructor ()
      ensures m == map[]
    {
      m := map[];
    }

    method Put(path: Hex, ver: Version, value: Bytes)
      modifies this
      ensures m == old(m)[(path, ver) := value]
    {
      m := m[(path, ver) := value];
    }
  }

  /** What store may add to the database: new blobs of one version at or below a path. */
  ghost predicate AddsBelow(db: Db, db': Db, ver: Version, path: Hex) {
    Extends(db, db') && forall k :: k in db' && k !in db ==> k.1 == ver && path <= k.0
  }

  ghost predicate FreshBelow(db: Db, ver: Version, path: Hex) {
    forall q: Hex :: path <= q ==> (q, ver) !in db
  }

  datatype StoreParams = StoreParams(newVer: Version, cacheTTL: Uint16, skipHash: bool)

  /** uint16 subtraction */
  function Age(a: Uint16, b: Uint16): Uint16 { (a as int - b as int) % 0x1_0000 }

  /** Whether a stored child is to be dropped from memory. */
  predicate Expired(parent: Flags, child: Flags, ttl: Uint16) { Age(parent.gen, child.gen) > ttl }

  /** store a child: dirty ones are stored, clean ones may give way to their ref. */
  method StoreChild(s: StoreParams, c: Node, parent: Flags, db: NodeDb, path: Hex, ghost h: HashFn, ghost t: Tree)
    returns (c': Node)
    requires Hash32(h) && path != [] && Rep(Env(h, !s.skipHash, db.m), c, path, t) && Sized(t)
    requires t.TNil? || IsVal(t) || TrieTree.Node(t)
    requires FreshBelow(db.m, s.newVer, path)
    modifies db
    ensures Rep(Env(h, !s.skipHash, db.m), c', path, t)
    ensures AddsBelow(old(db.m), db.m, s.newVer, path)
    decreases c, 1
  {
    if c.Full? || c.Short? {
      if c.flags.dirty {
        c' := StoreNode(s, c, db, path, h, t);
      } else if Expired(parent, c.flags, s.cacheTTL) {
        CleanAsRef(Env(h, !s.skipHash, db.m), c, path, t);
        c' := RefNode(c.flags.ref);
      } else {
        c' := c;
      }
    } else {
      c' := c;
    }
  }

  lemma CleanFlagsOk(e: Env, f: Flags, ver: Version, p: Hex, t: Tree)
    requires FlagsOk(e, f, p, t) && Loads(e, p, ver, t) && (e.hashed && p != [] ==> f.ref.hash != [])
    ensures FlagsOk(e, f.(dirty := false, ref := f.ref.(ver := ver)), p, t)
  {
  }

  /** The tail of store: a root, a hashed full node and everything in a trie without hashes is written. */
  method PutNode(s: StoreParams, n: Node, db: NodeDb, path: Hex, ghost h: HashFn, ghost t: Tree)
    returns (n': Node)
    requires Hash32(h) && Rep(Env(h, !s.skipHash, db.m), n, path, t) && Sized(t)
    requires TrieTree.Node(t) && (n.Full? || n.Short?)
    requires (path, s.newVer) !in db.m
    modifies db
    ensures Rep(Env(h, !s.skipHash, db.m), n', path, t) && (n'.Full? || n'.Short?)
    ensures AddsBelow(old(db.m), db.m, s.newVer, path)
    ensures path == [] ==> Clean(n') && n'.flags.ref == n.flags.ref.(ver := s.newVer)
  {
    hide RefOk, Loads, FlagsOk, TrieNode.Encodable;
    if path == [] || s.skipHash || (n.Full? && n.flags.ref.hash != []) {
      ghost var e := Env(h, !s.skipHash, db.m);
      NodeEncodable(e, n, path, t);
      db.Put(path, s.newVer, Encode(n, s.skipHash));
      ghost var e' := Env(h, !s.skipHash, db.m);
      RepMonotone(e, e', n, path, t);
      StoredLoads(e', n, path, s.newVer, t);
      CleanFlagsOk(e', n.flags, s.newVer, path, t);
      n' := n.(flags := n.flags.(dirty := false, ref := n.flags.ref.(ver := s.newVer)));
    } else {
      n' := n;
    }
  }

  method StoreNode(s: StoreParams, n: Node, db: NodeDb, path: Hex, ghost h: HashFn, ghost t: Tree)
    returns (n': Node)
    requires Hash32(h) && Rep(Env(h, !s.skipHash, db.m), n, path, t) && Sized(t)
    requires TrieTree.Node(t) && (n.Full? || n.Short?)
    requires FreshBelow(db.m, s.newVer, path)
    modifies db
    ensures Rep(Env(h, !s.skipHash, db.m), n', path, t) && (n'.Full? || n'.Short?)
    ensures AddsBelow(old(db.m), db.m, s.newVer, path)
    ensures path == [] ==> Clean(n') && n'.flags.ref == n.flags.ref.(ver := s.newVer)
    decreases n, 0
  {
    hide FlagsOk, RefOk, Loads;
    ghost var hashed := !s.skipHash;
    match n {
      case Full(cs, f) =>
        var cs' := cs;
        for i := 0 to 16
          invariant RepChildren(Env(h, hashed, db.m), cs', path, t) && |cs'| == |cs|
          invariant FlagsOk(Env(h, hashed, db.m), f, path, t)
          invariant forall j :: i <= j < 17 ==> cs'[j] == cs[j]
          invariant AddsUpTo(old(db.m), db.m, s.newVer, path, i)
        {
          ghost var e := Env(h, hashed, db.m);
          FreshChild(old(db.m), db.m, s.newVer, path, i);
          var c := StoreChild(s, cs[i], f, db, path + [i], h, t.children[i]);
          ghost var e' := Env(h, hashed, db.m);
          ChildrenMonotone(e, e', cs', path, t);
          FlagsMonotone(e, e', f, path, t);
          AddsStep(old(db.m), e.db, db.m, s.newVer, path, i);
          cs' := cs'[i := c];
        }
        n' := PutNode(s, Full(cs', f), db, path, h, t);
      case Short(k, c, f) =>
        ghost var e := Env(h, hashed, db.m);
        var c' := StoreChild(s, c, f, db, path + k, h, t.child);
        ghost var e' := Env(h, hashed, db.m);
        FlagsMonotone(e, e', f, path, t);
        n' := PutNode(s, Short(k, c', f), db, path, h, t);
    }
  }

  /** Storing children 0 to i only adds blobs below them. */
  ghost predicate AddsUpTo(db: Db, db': Db, ver: Version, path: Hex, i: nat) {
    && Extends(db, db')
    && forall k :: k in db' && k !in db ==>
         k.1 == ver && path <= k.0 && |path| < |k.0| && k.0[|path|] < i
  }

  lemma FreshChild(db: Db, db': Db, ver: Version, path: Hex, i: nat)
    requires i < 16 && FreshBelow(db, ver, path) && AddsUpTo(db, db', ver, path, i)
    ensures FreshBelow(db', ver, path + [i])
  {
    forall q: Hex | path + [i] <= q ensures (q, ver) !in db' {
      assert path <= q && q[|path|] == i;
    }
  }

  lemma AddsStep(db: Db, db1: Db, db2: Db, ver: Version, path: Hex, i: nat)
    requires i < 16 && AddsUpTo(db, db1, ver, path, i) && AddsBelow(db1, db2, ver, path + [i])
    ensures AddsUpTo(db, db2, ver, path, i + 1)
  {
    forall k | k in db2 && k !in db
      ensures k.1 == ver && path <= k.0 && |path| < |k.0| && k.0[|path|] < i + 1
    {
      if k !in db1 { assert path + [i] <= k.0; assert k.0[|path|] == (path + [i])[|path|]; }
    }
  }
}
