/**
 How nodes in memory and blobs in the database stand for a tree.

 The database maps a path and a version to a blob (trie/trie.go:71-82).  Rep says that a node found at
 a path stands for a tree; a ref stands for what its blob decodes to, and a node that is not dirty must
 also be what its own ref leads to.  When hashes are kept, every cached hash is the Merkle hash.
 */
module TrieStore {
  import opened ByteStrings
  import opened HexPrefix
  import opened TrieNode
  import opened TrieTree
  import opened TrieMerkle

  type Db = map<(Hex, Version), Bytes>

  /** What a representation is relative to: the hash function, whether hashes are kept, the database. */
  datatype Env = Env(h: HashFn, hashed: bool, db: Db)

  ghost predicate RefOk(e: Env, r: Ref, p: Hex, t: Tree) {
    e.hashed ==> TrieTree.Node(t) && r.hash == e.h(Enc(e.h, t)) && (p != [] ==> |Enc(e.h, t)| >= 32)
  }

  ghost predicate Rep(e: Env, n: Node, p: Hex, t: Tree)
    decreases t, 3
  {
    match n
    case Nil => t.TNil?
    case Value(v, m) => t == TVal(v, m)
    case RefNode(r) => RefOk(e, r, p, t) && Loads(e, p, r.ver, t)
    case Full(cs, f) =>
      t.TFull? && RepChildren(e, cs, p, t) && FlagsOk(e, f, p, t)
    case Short(k, c, f) =>
      t.TShort? && t.key == k && Rep(e, c, p + k, t.child) && FlagsOk(e, f, p, t)
  }

  ghost predicate RepChildren(e: Env, cs: seq<Node>, p: Hex, t: Tree)
    requires t.TFull?
    decreases t, 0
  {
    |cs| == |t.children| == 17 && forall i :: 0 <= i < 17 ==> Rep(e, cs[i], p + [i], t.children[i])
  }

  ghost predicate FlagsOk(e: Env, f: Flags, p: Hex, t: Tree)
    decreases t, 2
  {
    && (f.ref.hash != [] ==> RefOk(e, f.ref, p, t))
    && (!f.dirty ==> Loads(e, p, f.ref.ver, t) && (e.hashed && p != [] ==> f.ref.hash != []))
  }

  lemma GenIrrelevant(e: Env, f: Flags, gen: Uint16, p: Hex, t: Tree)
    requires FlagsOk(e, f, p, t)
    ensures FlagsOk(e, f.(gen := gen), p, t)
  {
  }

  /** The blob at a path and version decodes, whatever the cache generation, to a node for the tree. */
  ghost predicate Loads(e: Env, p: Hex, ver: Version, t: Tree)
    decreases t, 1
  {
    && (p, ver) in e.db
    && forall gen: Uint16 ::
         match DecodeNode(None, e.db[(p, ver)], gen)
         case Taken(Full(cs, _), _) => t.TFull? && RepChildren(e, cs, p, t)
         case Taken(Short(k, c, _), _) => k != [] && t.TShort? && t.key == k && Rep(e, c, p + k, t.child)
         case _ => false
  }

  // ---- reading a ref ----

  /** Corrupt stands for the panics on blobs and shapes the trie never produces. */
  datatype Outcome<+T> = Ok(value: T) | Missing(ref: Ref, path: Hex) | Corrupt

  /** resolveRef */
  function Resolve(db: Db, gen: Uint16, r: Ref, path: Hex): Outcome<Node> {
    if (path, r.ver) !in db then Missing(r, path)
    else
      match DecodeNode(Some(r), db[(path, r.ver)], gen)
      case Taken(Full(cs, f), _) => Ok(Full(cs, f))
      case Taken(Short(k, c, f), _) => if k == [] then Corrupt else Ok(Short(k, c, f))
      case _ => Corrupt
  }

  lemma ResolveRep(e: Env, gen: Uint16, r: Ref, p: Hex, t: Tree)
    requires Hash32(e.h) && Rep(e, RefNode(r), p, t)
    ensures var o := Resolve(e.db, gen, r, p);
            o.Ok? && Rep(e, o.value, p, t) && (o.value.Full? || o.value.Short?)
  {
    DecodeRefIndependent(r, e.db[(p, r.ver)], gen);
    var d := DecodeNode(None, e.db[(p, r.ver)], gen);
    assert d.Taken?;
  }

  /** Nil and values are never behind a ref. */
  lemma RefLeadsToNode(e: Env, r: Ref, p: Hex, t: Tree)
    requires Rep(e, RefNode(r), p, t)
    ensures t.TFull? || t.TShort?
  {
    var d := DecodeNode(None, e.db[(p, r.ver)], 0);
    assert d.Taken?;
  }

  lemma NilIffNil(e: Env, n: Node, p: Hex, t: Tree)
    requires Rep(e, n, p, t)
    ensures n.Nil? <==> t.TNil?
  {
    if n.RefNode? { RefLeadsToNode(e, n.ref, p, t); }
  }

  // ---- a database only grows ----

  predicate Extends(db: Db, db': Db) { forall k :: k in db ==> k in db' && db'[k] == db[k] }

  lemma {:induction false} RepMonotone(e: Env, e': Env, n: Node, p: Hex, t: Tree)
    requires e.h == e'.h && (e'.hashed ==> e.hashed) && Extends(e.db, e'.db)
    requires Rep(e, n, p, t)
    ensures Rep(e', n, p, t)
    decreases t, 3
  {
    match n
    case Nil =>
    case Value(_, _) =>
    case RefNode(r) => LoadsMonotone(e, e', p, r.ver, t);
    case Full(cs, f) =>
      ChildrenMonotone(e, e', cs, p, t);
      FlagsMonotone(e, e', f, p, t);
    case Short(k, c, f) =>
      RepMonotone(e, e', c, p + k, t.child);
      FlagsMonotone(e, e', f, p, t);
  }

  lemma {:induction false} ChildrenMonotone(e: Env, e': Env, cs: seq<Node>, p: Hex, t: Tree)
    requires e.h == e'.h && (e'.hashed ==> e.hashed) && Extends(e.db, e'.db)
    requires t.TFull? && RepChildren(e, cs, p, t)
    ensures RepChildren(e', cs, p, t)
    decreases t, 0
  {
    forall i | 0 <= i < 17 ensures Rep(e', cs[i], p + [i], t.children[i]) {
      RepMonotone(e, e', cs[i], p + [i], t.children[i]);
    }
  }

  lemma {:induction false} FlagsMonotone(e: Env, e': Env, f: Flags, p: Hex, t: Tree)
    requires e.h == e'.h && (e'.hashed ==> e.hashed) && Extends(e.db, e'.db)
    requires FlagsOk(e, f, p, t)
    ensures FlagsOk(e', f, p, t)
    decreases t, 2
  {
    if !f.dirty { LoadsMonotone(e, e', p, f.ref.ver, t); }
  }

  /** Whatever a version led to, it still does when the database has grown. */
  lemma {:induction false} LoadsMonotone(e: Env, e': Env, p: Hex, ver: Version, t: Tree)
    requires e.h == e'.h && (e'.hashed ==> e.hashed) && Extends(e.db, e'.db)
    requires Loads(e, p, ver, t)
    ensures Loads(e', p, ver, t)
    decreases t, 1
  {
    forall gen: Uint16
      ensures match DecodeNode(None, e'.db[(p, ver)], gen)
              case Taken(Full(cs, _), _) => t.TFull? && RepChildren(e', cs, p, t)
              case Taken(Short(k, c, _), _) => k != [] && t.TShort? && t.key == k && Rep(e', c, p + k, t.child)
              case _ => false
    {
      match DecodeNode(None, e.db[(p, ver)], gen)
      case Taken(Full(cs, _), _) => ChildrenMonotone(e, e', cs, p, t);
      case Taken(Short(k, c, _), _) => RepMonotone(e, e', c, p + k, t.child);
      case _ =>
    }
  }
}
