/**
 The trie (trie/trie.go).  A trie is a root node over a database; its contents are the map from keys to
 values and metadata that the root stands for.
 */
module Trie {
  import opened ByteStrings
  import opened HexPrefix
  import opened TrieNode
  import opened TrieTree
  import opened TrieMerkle
  import opened TrieStore
  import opened TrieGet
  import opened TrieInsert
  import opened TrieDelete
  import opened TrieHasher
  import Rlp

  datatype Root = Root(hash: Bytes, ver: Version)

  predicate IsEmptyRoot(h: HashFn, r: Root) {
    r.hash == h(Rlp.Encode(Rlp.Str([]))) || r.hash == seq(32, _ => 0)
  }

  /** The database holds a tree with the map under the root. */
  ghost predicate Rooted(e: Env, r: Root, m: Contents) {
    exists t: Tree :: TrieTree.Node(t) && Rep(e, RefNode(Ref(r.hash, r.ver)), [], t) && Agrees(t, m)
  }

  /** Opening the root reads the map: New makes an empty trie of a zero or empty root and loads any other. */
  ghost predicate Opens(e: Env, r: Root, m: Contents) {
    if IsEmptyRoot(e.h, r) then m == map[] else Rooted(e, r, m)
  }

  /** Every root that could be opened still opens with its own map after the database has grown. */
  lemma OldRootsSurvive(e: Env, e': Env, r: Root, m: Contents)
    requires e.h == e'.h && e.hashed == e'.hashed && Extends(e.db, e'.db) && Opens(e, r, m)
    ensures Opens(e', r, m)
  {
    if !IsEmptyRoot(e.h, r) {
      var n := RefNode(Ref(r.hash, r.ver));
      var t: Tree :| TrieTree.Node(t) && Rep(e, n, [], t) && Agrees(t, m);
      RepMonotone(e, e', n, [], t);
    }
  }

  /** Under the zero hash a stored map is lost: whatever the database holds, the root opens empty. */
  lemma ZeroHashOpensEmpty(e: Env, ver: Version, m: Contents)
    ensures Opens(e, Root(seq(32, _ => 0), ver), m) <==> m == map[]
  {
  }

  /** Sizes the storage format can hold: the code narrows the length of a compact key to 32 bits. */
  predicate Storable(m: Contents) {
    forall k :: k in m ==> |k| <= 0x1_FFFF_FFFD && |m[k].val| < TWO64 && |m[k].meta| < TWO64
  }

  ghost predicate StorableTree(t: Tree, room: nat) {
    forall k: Hex :: Lookup(t, k).Some? ==>
      var e := Lookup(t, k).value; |k| <= room && |e.val| < TWO64 && |e.meta| < TWO64
  }

  lemma {:induction false} StorableIsSized(t: Tree, room: nat)
    requires room <= 0x1_FFFF_FFFD && (t.TNil? || IsVal(t) || TrieTree.Node(t)) && StorableTree(t, room)
    ensures Sized(t)
    decreases t
  {
    match t
    case TNil =>
    case TVal(v, m) => assert Lookup(t, []) == Some(Entry(v, m));
    case TShort(key, c) =>
      assert |AnyKey(t)| <= room && key <= AnyKey(t);
      forall k: Hex | Lookup(c, k).Some?
        ensures var e := Lookup(c, k).value; |k| <= room && |e.val| < TWO64 && |e.meta| < TWO64
      {
        assert (key + k)[|key|..] == k;
        assert Lookup(t, key + k) == Lookup(c, k);
      }
      StorableIsSized(c, room);
    case TFull(cs) =>
      forall i | 0 <= i < 17 ensures Sized(cs[i]) {
        forall k: Hex | Lookup(cs[i], k).Some?
          ensures var e := Lookup(cs[i], k).value; |k| <= room && |e.val| < TWO64 && |e.meta| < TWO64
        {
          assert ([i] + k)[1..] == k;
          assert Lookup(t, [i] + k) == Lookup(cs[i], k);
        }
        StorableIsSized(cs[i], room);
      }
  }

  lemma StorableMap(t: Tree, m: Contents)
    requires WellFormed(t) && Agrees(t, m) && Storable(m)
    ensures Sized(t)
  {
    forall k: Hex | Lookup(t, k).Some?
      ensures var e := Lookup(t, k).value; |k| <= 0x1_FFFF_FFFD && |e.val| < TWO64 && |e.meta| < TWO64
    {
      assert Lookup(t, k) == Find(m, k);
    }
    StorableIsSized(t, 0x1_FFFF_FFFD);
  }

  class Trie {
    const h: HashFn
    const db: NodeDb
    var root: Node
    var cacheGen: Uint16
    var cacheTTL: Uint16

    ghost var hashed: bool       // hashes are kept: the trie was never committed without them
    ghost var tree: Tree         // what the root stands for
    ghost var contents: Contents // the map the tree holds

    ghost function E(): Env
      reads this, db
    {
      Env(h, hashed, db.m)
    }

    ghost predicate Valid()
      reads this, db
    {
      Hash32(h) && Rep(E(), root, [], tree) && WellFormed(tree) && Agrees(tree, contents)
    }

    /** New: a zero or empty root is the empty trie, any other is loaded on demand. */
    constructor Open(h: HashFn, r: Root, db: NodeDb, ghost hashed: bool, ghost m: Contents)
      requires Hash32(h)
      requires Opens(Env(h, hashed, db.m), r, m)
      ensures Valid() && this.h == h && this.db == db && this.hashed == hashed && contents == m
      ensures cacheGen == 0 && cacheTTL == 0
    {
      this.h, this.db, this.hashed, contents := h, db, hashed, m;
      cacheGen, cacheTTL := 0, 0;
      if IsEmptyRoot(h, r) {
        root, tree := Nil, TNil;
      } else {
        root := RefNode(Ref(r.hash, r.ver));
        ghost var t: Tree :|
          TrieTree.Node(t) && Rep(Env(h, hashed, db.m), RefNode(Ref(r.hash, r.ver)), [], t) && Agrees(t, m);
        tree := t;
      }
    }

    method SetCacheTTL(ttl: Uint16)
      requires Valid()
      modifies this`cacheTTL
      ensures Valid() && cacheTTL == ttl
    {
      cacheTTL := ttl;
    }

    /** Get: the map's value and metadata for any key, found or not; the map stays as it is. */
    method Get(key: Bytes) returns (o: Outcome<Option<Entry>>)
      requires Valid()
      modifies this`root
      ensures Valid()
      ensures o == Ok(Find(contents, KeybytesToHex(key)))
    {
      var k := KeybytesToHex(key);
      assert k[..0] == [] && k[0..] == k;
      TryGetCorrect(E(), cacheGen, root, k, 0, tree);
      match TryGet(db.m, cacheGen, root, k, 0)
      case Ok(g) =>
        root := g.node;
        o := Ok(g.value);
      case Missing(r, p) =>
        o := Missing(r, p);
      case Corrupt =>
        o := Corrupt;
    }

    /** Update: an empty value removes the key, any other is stored with its metadata. */
    method Update(key: Bytes, val: Bytes, meta: Bytes) returns (o: Outcome<()>)
      requires Valid()
      modifies this`root, this`tree, this`contents
      ensures Valid() && o == Ok(())
      ensures contents == if val == [] then old(contents) - {KeybytesToHex(key)}
                          else old(contents)[KeybytesToHex(key) := Entry(val, meta)]
    {
      var k := KeybytesToHex(key);
      var r;
      if val != [] {
        ghost var t' := InsertCorrect(E(), cacheGen, root, [], k, Entry(val, meta), tree);
        contents := contents[k := Entry(val, meta)];
        AgreesAfterInsert(tree, t', old(contents), k, Entry(val, meta));
        r := Insert(db.m, cacheGen, root, [], k, Value(val, meta));
        tree := t';
      } else {
        ghost var t' := DeleteCorrect(E(), cacheGen, root, [], k, tree);
        contents := contents - {k};
        AgreesAfterDelete(tree, t', old(contents), k);
        r := Delete(db.m, cacheGen, root, [], k);
        tree := t';
      }
      root := r.value.node;
      o := Ok(());
    }

    /** Hash: the Merkle root of the map. */
    method Hash() returns (hash: Bytes)
      requires Valid() && hashed
      modifies this`root
      ensures Valid() && hash == RootHash(h, tree)
    {
      if root.Nil? {
        return h(Rlp.Encode(Rlp.Str([])));
      }
      NilIffNil(E(), root, [], tree);
      var n;
      n, hash := HashNode(h, root, true, E(), [], tree);
      root := n;
    }

    /**
     Commit at a version not used before: the map is kept, the database only grows, and the new root
     opens with the map unless its hash is taken for that of an empty trie.  Going on without hashes is
     always possible; hashes can be written only if they were kept all along.
     */
    method Commit(newVer: Version, skipHash: bool)
      requires Valid() && (skipHash || hashed)
      requires FreshBelow(db.m, newVer, []) && Storable(contents)
      modifies this`root, this`cacheGen, this`hashed, db
      ensures Valid() && hashed == (old(hashed) && !skipHash)
      ensures AddsBelow(old(db.m), db.m, newVer, [])
      ensures contents != map[] ==> Rep(E(), RefNode(Ref(RootHash(h, tree), newVer)), [], tree)
      ensures contents != map[] ==> OpensAt(E(), newVer, RootHash(h, tree), contents)
      ensures contents == map[] ==> Opens(E(), Root(RootHash(h, tree), newVer), contents)
    {
      hide Loads, RefOk, FlagsOk, RepChildren, Opens, OpensAt, Resolve, Agrees, Storable, RootHash;
      NilIffNil(E(), root, [], tree);
      if root.Nil? {
        EmptyAgrees(contents);
        hashed := hashed && !skipHash;
        EmptyOpens(E(), newVer);
        return;
      }
      var resolved := root;
      if root.RefNode? {
        ResolveRep(E(), cacheGen, root.ref, [], tree);
        resolved := Resolve(db.m, cacheGen, root.ref, []).value;
      }
      if !skipHash {
        var hash;
        resolved, hash := HashNode(h, resolved, true, E(), [], tree);
      }
      ghost var e := E();
      hashed := hashed && !skipHash;
      RepMonotone(e, E(), resolved, [], tree);
      StorableMap(tree, contents);
      root := StoreNode(StoreParams(newVer, cacheTTL, skipHash), resolved, db, [], h, tree);
      cacheGen := (cacheGen + 1) % 0x1_0000;
      CommittedOpens(E(), root, newVer, tree, contents);
    }
  }

  lemma EmptyAgrees(m: Contents)
    requires Agrees(TNil, m)
    ensures m == map[]
  {
    forall k ensures k !in m { assert Find(m, k) == Lookup(TNil, k); }
  }

  lemma EmptyOpens(e: Env, ver: Version)
    ensures Opens(e, Root(RootHash(e.h, TNil), ver), map[])
  {
  }

  /**
   The roots under which a committed map opens: exactly those whose hash does not stand for an empty trie.
   With hashes the hash must be that of the tree, without them any will do.
   */
  ghost predicate OpensAt(e: Env, ver: Version, rootHash: Bytes, m: Contents) {
    forall hash: Bytes :: !e.hashed || hash == rootHash ==>
      (Opens(e, Root(hash, ver), m) <==> !IsEmptyRoot(e.h, Root(hash, ver)))
  }

  lemma CommittedOpens(e: Env, n: Node, ver: Version, t: Tree, m: Contents)
    requires Rep(e, n, [], t) && Clean(n) && n.flags.ref.ver == ver && TrieTree.Node(t) && Agrees(t, m)
    ensures m != map[] && Rep(e, RefNode(Ref(RootHash(e.h, t), ver)), [], t) && OpensAt(e, ver, RootHash(e.h, t), m)
  {
    StoredOpens(e, ver, t, m);
  }

  /** A tree that the database holds under a version opens there. */
  lemma StoredOpens(e: Env, ver: Version, t: Tree, m: Contents)
    requires TrieTree.Node(t) && Agrees(t, m) && Rep(e, RefNode(Ref(RootHash(e.h, t), ver)), [], t)
    ensures m != map[] && OpensAt(e, ver, RootHash(e.h, t), m)
  {
    assert Lookup(t, AnyKey(t)) == Find(m, AnyKey(t));
    forall hash: Bytes | !e.hashed || hash == RootHash(e.h, t)
      ensures Opens(e, Root(hash, ver), m) <==> !IsEmptyRoot(e.h, Root(hash, ver))
    {
      assert Rep(e, RefNode(Ref(hash, ver)), [], t);
    }
  }

  lemma AgreesAfterInsert(t: Tree, t': Tree, m: Contents, k: Hex, v: Entry)
    requires Agrees(t, m) && Stored(t, t', k, v)
    ensures Agrees(t', m[k := v])
  {
  }

  lemma AgreesAfterDelete(t: Tree, t': Tree, m: Contents, k: Hex)
    requires Agrees(t, m) && Removed(t, t', k)
    ensures Agrees(t', m - {k})
  {
  }
}
