/**
 The repository of blocks and its chains (chain/repository.go, chain/chain.go).

 Every block carries an index from block number to block id for the chain it ends.  The index is a trie
 that is opened at the parent's version, extended by one entry and committed at the version made of the
 new block's number and its conflicts counter.
 */
module Chain {
  import opened ByteStrings
  import opened HexPrefix
  import opened TrieNode
  import opened TrieTree
  import opened TrieMerkle
  import opened TrieStore
  import opened TrieHasher
  import opened BlockTree
  import T = Trie
  import Rlp

  /** The index trie skips hashes; its roots carry just a non-zero hash. */
  const INDEX_HASH: Bytes :=
    [0, 0, 0, 0, 0, 0, 0, 0, 0, 0, 0, 0, 0, 0, 0, 0, 0, 0, 0, 0, 0, 0, 0, 0, 0, 0, 0, 0, 0, 0, 0, 1]

  datatype Found = Block(id: Id) | NotFound | NoHead

  function NumKey(n: Uint32): Hex { KeybytesToHex(Uint32Bytes(n)) }

  lemma NumKeyInjective(a: Uint32, b: Uint32)
    requires NumKey(a) == NumKey(b)
    ensures a == b
  {
    KeybytesToHexInjective(Uint32Bytes(a), Uint32Bytes(b));
    Uint32RoundTrip(a, []);
    Uint32RoundTrip(b, []);
    assert Uint32Bytes(a) + [] == Uint32Bytes(b) + [];
  }

  // ---- what an index holds ----

  ghost function Index(b: Blocks, head: Id): Contents
    requires b.Valid() && b.Has(head)
    decreases Number(head)
  {
    if head == b.genesis then map[NumKey(0) := Entry(head, [])]
    else Index(b, b.parent[head])[NumKey(Number(head)) := Entry(head, [])]
  }

  /** An index holds exactly the ancestors of its head, by height. */
  lemma {:induction false} IndexFinds(b: Blocks, head: Id, n: Uint32)
    requires b.Valid() && b.Has(head)
    ensures Find(Index(b, head), NumKey(n)) ==
            if n <= Number(head) then Some(Entry(b.Ancestor(head, n), [])) else None
    decreases Number(head)
  {
    if NumKey(n) == NumKey(Number(head)) { NumKeyInjective(n, Number(head)); }
    if head != b.genesis { IndexFinds(b, b.parent[head], n); }
  }

  lemma {:induction false} IndexStorable(b: Blocks, head: Id)
    requires b.Valid() && b.Has(head)
    ensures T.Storable(Index(b, head)) && Index(b, head) != map[]
    decreases Number(head)
  {
    if head != b.genesis { IndexStorable(b, b.parent[head]); }
    assert NumKey(Number(head)) in Index(b, head);
  }

  lemma {:induction false} AddKeepsIndex(b: Blocks, id: Id, p: Id, head: Id)
    requires b.Valid() && !b.Has(id) && b.Has(p) && Number(id) == Number(p) + 1 && b.Has(head)
    ensures b.Add(id, p).Valid() && b.Add(id, p).Has(head) && Index(b.Add(id, p), head) == Index(b, head)
    decreases Number(head)
  {
    AddValid(b, id, p);
    if head != b.genesis { AddKeepsIndex(b, id, p, b.parent[head]); }
  }

  // ---- the repository ----

  /** Opening the index at a version reads the map. */
  ghost predicate Indexed(h: HashFn, db: Db, ver: Version, m: Contents) {
    T.Opens(Env(h, false, db), T.Root(INDEX_HASH, ver), m)
  }

  /** indexBlock: the parent's index with one more entry, under a new version. */
  method IndexBlock(h: HashFn, db: NodeDb, r: T.Root, id: Id, ver: Version, ghost m: Contents)
    requires Hash32(h) && h(Rlp.Encode(Rlp.Str([]))) != INDEX_HASH
    requires T.Opens(Env(h, false, db.m), r, m)
    requires FreshBelow(db.m, ver, []) && T.Storable(m[NumKey(Number(id)) := Entry(id, [])])
    modifies db
    ensures AddsBelow(old(db.m), db.m, ver, [])
    ensures Indexed(h, db.m, ver, m[NumKey(Number(id)) := Entry(id, [])])
  {
    hide T.Opens, FreshBelow, AddsBelow, T.Storable;
    var t := new T.Trie.Open(h, r, db, false, m);
    NumberBytes(id);
    var o := t.Update(id[..4], id, []);
    assert NumKey(Number(id)) in t.contents;
    t.Commit(ver, true);
    IndexHashIsNotEmpty(h, ver);
  }

  lemma IndexHashIsNotEmpty(h: HashFn, ver: Version)
    requires h(Rlp.Encode(Rlp.Str([]))) != INDEX_HASH
    ensures !T.IsEmptyRoot(h, T.Root(INDEX_HASH, ver))
  {
    assert INDEX_HASH[31] != seq(32, _ => 0)[31];
  }

  /** The version under which a block's index is committed. */
  function VerOf(conflicts: map<Id, Uint32>, id: Id): Version
    requires id in conflicts
  {
    Version(Number(id), conflicts[id])
  }

  ghost predicate Used(conflicts: map<Id, Uint32>, ver: Version) {
    exists id :: id in conflicts && VerOf(conflicts, id) == ver
  }

  /** Every known block has its own version, and its index opens there with its ancestors. */
  ghost predicate RepoOk(h: HashFn, db: Db, blocks: Blocks, conflicts: map<Id, Uint32>) {
    && Hash32(h) && h(Rlp.Encode(Rlp.Str([]))) != INDEX_HASH
    && blocks.Valid()
    && (forall id :: blocks.Has(id) <==> id in conflicts)
    && (forall a, b :: a in conflicts && b in conflicts && VerOf(conflicts, a) == VerOf(conflicts, b) ==> a == b)
    && (forall id :: id in conflicts ==> Indexed(h, db, VerOf(conflicts, id), Index(blocks, id)))
    && (forall k :: k in db ==> Used(conflicts, k.1))
  }

  lemma RootOpens(h: HashFn, db: Db, blocks: Blocks, conflicts: map<Id, Uint32>, id: Id)
    requires RepoOk(h, db, blocks, conflicts) && id in conflicts
    ensures !T.IsEmptyRoot(h, T.Root(INDEX_HASH, VerOf(conflicts, id)))
    ensures T.Opens(Env(h, false, db), T.Root(INDEX_HASH, VerOf(conflicts, id)), Index(blocks, id))
  {
    IndexHashIsNotEmpty(h, VerOf(conflicts, id));
  }

  lemma RepoStep(h: HashFn, db: Db, db': Db, blocks: Blocks, conflicts: map<Id, Uint32>, id: Id, p: Id, c: Uint32)
    requires RepoOk(h, db, blocks, conflicts) && !blocks.Has(id) && blocks.Has(p) && Number(id) == Number(p) + 1
    requires !Used(conflicts, Version(Number(id), c)) && AddsBelow(db, db', Version(Number(id), c), [])
    requires Indexed(h, db', Version(Number(id), c), Index(blocks, p)[NumKey(Number(id)) := Entry(id, [])])
    ensures RepoOk(h, db', blocks.Add(id, p), conflicts[id := c])
  {
    hide Indexed, AddsBelow, Hash32, Number, NumKey, Rlp.Encode, Index, Used;
    AddValid(blocks, id, p);
    StepIndexed(h, db, db', blocks, conflicts, id, p, c);
    StepUsed(db, db', conflicts, id, c);
    StepUnique(conflicts, id, c);
  }

  lemma StepIndexed(h: HashFn, db: Db, db': Db, blocks: Blocks, conflicts: map<Id, Uint32>, id: Id, p: Id, c: Uint32)
    requires RepoOk(h, db, blocks, conflicts) && !blocks.Has(id) && blocks.Has(p) && Number(id) == Number(p) + 1
    requires AddsBelow(db, db', Version(Number(id), c), [])
    requires Indexed(h, db', Version(Number(id), c), Index(blocks, p)[NumKey(Number(id)) := Entry(id, [])])
    ensures blocks.Add(id, p).Valid() && forall x :: x in conflicts[id := c] ==> blocks.Add(id, p).Has(x)
    ensures forall x :: x in conflicts[id := c] ==>
              Indexed(h, db', VerOf(conflicts[id := c], x), Index(blocks.Add(id, p), x))
  {
    hide Indexed, AddsBelow, Hash32, Number, NumKey, Rlp.Encode, Used;
    var blocks', conflicts' := blocks.Add(id, p), conflicts[id := c];
    AddValid(blocks, id, p);
    AddKeepsIndex(blocks, id, p, p);
    forall x | x in conflicts' ensures Indexed(h, db', VerOf(conflicts', x), Index(blocks', x)) {
      if x != id {
        AddKeepsIndex(blocks, id, p, x);
        IndexSurvives(h, db, db', Version(Number(id), c), VerOf(conflicts, x), Index(blocks, x));
      }
    }
  }

  lemma StepUsed(db: Db, db': Db, conflicts: map<Id, Uint32>, id: Id, c: Uint32)
    requires forall k :: k in db ==> Used(conflicts, k.1)
    requires id !in conflicts && AddsBelow(db, db', Version(Number(id), c), [])
    ensures forall k :: k in db' ==> Used(conflicts[id := c], k.1)
  {
    hide Number, AddsBelow;
    var conflicts' := conflicts[id := c];
    forall k | k in db' ensures Used(conflicts', k.1) {
      if k in db {
        assert Used(conflicts, k.1);
        var x :| x in conflicts && VerOf(conflicts, x) == k.1;
        assert VerOf(conflicts', x) == k.1;
      } else {
        AddedVersion(db, db', Version(Number(id), c), k);
        assert VerOf(conflicts', id) == k.1;
      }
    }
  }

  lemma StepUnique(conflicts: map<Id, Uint32>, id: Id, c: Uint32)
    requires forall a, b :: a in conflicts && b in conflicts && VerOf(conflicts, a) == VerOf(conflicts, b) ==> a == b
    requires !Used(conflicts, Version(Number(id), c)) && id !in conflicts
    ensures var cs := conflicts[id := c];
            forall a, b :: a in cs && b in cs && VerOf(cs, a) == VerOf(cs, b) ==> a == b
  {
    hide Number;
    var cs := conflicts[id := c];
    forall a, b | a in cs && b in cs && VerOf(cs, a) == VerOf(cs, b) ensures a == b {
      if a != id { assert VerOf(conflicts, a) == VerOf(cs, a); }
      if b != id { assert VerOf(conflicts, b) == VerOf(cs, b); }
    }
  }

  lemma NewVersion(h: HashFn, db: Db, blocks: Blocks, conflicts: map<Id, Uint32>, ver: Version)
    requires RepoOk(h, db, blocks, conflicts) && !Used(conflicts, ver)
    ensures FreshBelow(db, ver, [])
  {
  }

  class Repository {
    const h: HashFn
    const db: NodeDb
    var blocks: Blocks
    var conflicts: map<Id, Uint32>

    ghost predicate Valid()
      reads this, db
    {
      RepoOk(h, db.m, blocks, conflicts)
    }

    /** NewRepository on an empty store: the index of the genesis block starts from nothing. */
    constructor (h: HashFn, genesis: Id)
      requires Hash32(h) && h(Rlp.Encode(Rlp.Str([]))) != INDEX_HASH && Number(genesis) == 0
      ensures Valid() && fresh(db) && blocks == Blocks(genesis, map[]) && conflicts == map[genesis := 0]
    {
      this.h := h;
      this.db := new NodeDb();
      blocks, conflicts := Blocks(genesis, map[]), map[genesis := 0];
      new;
      IndexStorable(blocks, genesis);
      assert map[][NumKey(0) := Entry(genesis, [])] == Index(blocks, genesis);
      IndexBlock(h, db, T.Root(seq(32, _ => 0), Version(0, 0)), genesis, Version(0, 0), map[]);
      forall k | k in db.m ensures Used(conflicts, k.1) { assert VerOf(conflicts, genesis) == k.1; }
    }

    /** AddBlock: false stands for the error on a missing parent. */
    method AddBlock(id: Id, parentID: Id, newConflicts: Uint32) returns (ok: bool)
      requires Valid() && !blocks.Has(id)
      requires blocks.Has(parentID) ==> Number(id) == Number(parentID) + 1
      requires !Used(conflicts, Version(Number(id), newConflicts))
      modifies this, db
      ensures Valid() && ok == old(blocks).Has(parentID)
      ensures if ok then blocks == old(blocks).Add(id, parentID) && conflicts == old(conflicts)[id := newConflicts]
              else unchanged(this) && unchanged(db)
    {
      if parentID !in conflicts {
        return false;
      }
      hide Indexed, T.Opens, AddsBelow, FreshBelow, T.Storable, Used;
      ghost var db0 := db.m;
      var ver := Version(Number(id), newConflicts);
      ParentIndex(h, db.m, blocks, conflicts, id, parentID);
      NewVersion(h, db.m, blocks, conflicts, ver);
      IndexBlock(h, db, T.Root(INDEX_HASH, VerOf(conflicts, parentID)), id, ver, Index(blocks, parentID));
      RepoStep(h, db0, db.m, blocks, conflicts, id, parentID, newConflicts);
      blocks := blocks.Add(id, parentID);
      conflicts := conflicts[id := newConflicts];
      ok := true;
    }

    /** GetBlockID: the ancestor of the head at a height, found through the index. */
    method GetBlockID(headID: Id, num: Uint32) returns (f: Found)
      requires Valid()
      ensures f == if !blocks.Has(headID) then NoHead
                   else if num <= Number(headID) then Block(blocks.Ancestor(headID, num))
                   else NotFound
    {
      if headID !in conflicts {
        return NoHead;
      }
      RootOpens(h, db.m, blocks, conflicts, headID);
      IndexFinds(blocks, headID, num);
      hide RepoOk, T.Opens, Index;
      var t := new T.Trie.Open(h, T.Root(INDEX_HASH, VerOf(conflicts, headID)), db, false, Index(blocks, headID));
      var o := t.Get(Uint32Bytes(num));
      match o.value
      case None => f := NotFound;
      case Some(e) => f := Block(e.val);
    }

    /** HasBlock: exactly the head and its ancestors belong to its chain; an unknown head is an error. */
    method HasBlock(headID: Id, id: Id) returns (r: bool, ok: bool)
      requires Valid()
      ensures ok == blocks.Has(headID) && (r <==> OnOther(blocks, headID, id))
    {
      var f := GetBlockID(headID, Number(id));
      r, ok := f == Block(id), !f.NoHead?;
    }

    /** The test Exclude applies to each block on its way down; the index is asked only below the other head. */
    method Shared(otherID: Id, id: Id) returns (r: bool, ok: bool)
      requires Valid()
      ensures ok <==> blocks.Has(otherID) || Number(id) >= Number(otherID)
      ensures r <==> id == otherID || OnOther(blocks, otherID, id)
    {
      if Number(id) > Number(otherID) {
        r, ok := false, true;
      } else if Number(id) == Number(otherID) {
        r, ok := id == otherID, true;
      } else {
        r, ok := HasBlock(otherID, id);
      }
    }

    /**
     Exclude: the blocks of one chain that are not on the other, in ascending order and without the genesis.
     None, an error, exactly when an unknown head cannot be passed over.
     */
    method Exclude(headID: Id, otherID: Id) returns (r: Option<seq<Id>>)
      requires Valid()
      ensures r.None? <==> Stuck(blocks, headID, otherID)
      ensures r.Some? ==> if blocks.Has(headID) then Excluded(blocks, headID, otherID, r.value) else r.value == []
    {
      hide Number, RepoOk, blocks.Valid, Walk, OnOther, blocks.Ancestor, Excluded;
      RepoBlocks(h, db.m, blocks, conflicts);
      var ids: seq<Id>, id := [], headID;
      if blocks.Has(headID) { WalkStart(blocks, headID, otherID); }
      while true
        invariant if blocks.Has(headID) then blocks.Has(id) && Walk(blocks, headID, otherID, id, ids)
                  else id == headID && ids == []
        invariant ids == [] ==> id == headID
        invariant ids != [] && !blocks.Has(otherID) ==> Number(otherID) <= Number(id) + 1
        invariant Number(id) <= Number(headID)
        decreases Number(id)
      {
        if Number(id) == 0 { break; }
        var shared, ok := Shared(otherID, id);
        if !ok { return None; }
        if shared {
          SharedIsKnown(blocks, otherID, id);
          break;
        }
        if blocks.Has(headID) { WalkStep(blocks, headID, otherID, id, ids); }
        ids := ids + [id];
        var f := GetBlockID(headID, Number(id) - 1);
        if !f.Block? { return None; }
        id := f.id;
      }
      var down := ids;
      ids := Reverse(down);
      if blocks.Has(headID) { ExcludedExactly(blocks, headID, otherID, id, down, ids); }
      r := Some(ids);
    }
  }

  /** A head that is needed is not there: the chain's own, or the other one, which is asked about blocks below it. */
  predicate Stuck(b: Blocks, headID: Id, otherID: Id) {
    && headID != otherID && Number(headID) > 0
    && (!b.Has(headID) || (!b.Has(otherID) && Number(otherID) >= 2))
  }

  /** On the chain of a head that may be unknown. */
  ghost predicate OnOther(b: Blocks, otherID: Id, id: Id)
    requires b.Valid()
  {
    b.Has(otherID) && b.OnChain(otherID, id)
  }

  lemma SharedIsKnown(b: Blocks, otherID: Id, id: Id)
    requires b.Valid() && (id == otherID || OnOther(b, otherID, id))
    ensures b.Has(id) ==> b.Has(otherID) && OnOther(b, otherID, id)
    ensures !b.Has(id) ==> id == otherID
  {
  }

  lemma RepoBlocks(h: HashFn, db: Db, blocks: Blocks, conflicts: map<Id, Uint32>)
    requires RepoOk(h, db, blocks, conflicts)
    ensures blocks.Valid()
  {
  }

  lemma ParentIndex(h: HashFn, db: Db, blocks: Blocks, conflicts: map<Id, Uint32>, id: Id, p: Id)
    requires RepoOk(h, db, blocks, conflicts) && !blocks.Has(id) && p in conflicts && Number(id) == Number(p) + 1
    ensures !T.IsEmptyRoot(h, T.Root(INDEX_HASH, VerOf(conflicts, p)))
    ensures T.Opens(Env(h, false, db), T.Root(INDEX_HASH, VerOf(conflicts, p)), Index(blocks, p))
    ensures T.Storable(Index(blocks, p)[NumKey(Number(id)) := Entry(id, [])])
  {
    RootOpens(h, db, blocks, conflicts, p);
    IndexStorable(blocks, p);
  }

  /** The walk down from head has reached id and passed ids, none of them on the other chain. */
  ghost predicate Walk(b: Blocks, headID: Id, otherID: Id, id: Id, ids: seq<Id>)
    requires b.Valid() && b.Has(headID)
  {
    && b.OnChain(headID, id) && Number(id) == Number(headID) - |ids|
    && forall i :: 0 <= i < |ids| ==>
         && Number(ids[i]) == Number(headID) - i && ids[i] == b.Ancestor(headID, Number(ids[i]))
         && !OnOther(b, otherID, ids[i])
  }

  lemma WalkStart(b: Blocks, headID: Id, otherID: Id)
    requires b.Valid() && b.Has(headID)
    ensures Walk(b, headID, otherID, headID, [])
  {
  }

  lemma WalkStep(b: Blocks, headID: Id, otherID: Id, id: Id, ids: seq<Id>)
    requires b.Valid() && b.Has(headID) && b.Has(id) && Walk(b, headID, otherID, id, ids)
    requires 0 < Number(id) && !OnOther(b, otherID, id)
    ensures Number(id) <= Number(headID)
    ensures Walk(b, headID, otherID, b.Ancestor(headID, Number(id) - 1), ids + [id])
  {
    hide Number, b.Valid, OnOther;
    var up := ids + [id];
    forall i | 0 <= i < |up|
      ensures Number(up[i]) == Number(headID) - i && up[i] == b.Ancestor(headID, Number(up[i]))
              && !OnOther(b, otherID, up[i])
    {
      if i < |ids| { assert up[i] == ids[i]; }
    }
  }

  /** Exactly the blocks of one chain above the genesis that are not on the other, in ascending order. */
  ghost predicate Excluded(b: Blocks, headID: Id, otherID: Id, ids: seq<Id>)
    requires b.Valid() && b.Has(headID)
  {
    && (forall x :: x in ids <==> b.OnChain(headID, x) && !OnOther(b, otherID, x) && Number(x) > 0)
    && (forall i, j :: 0 <= i < j < |ids| ==> Number(ids[i]) < Number(ids[j]))
  }

  /** The walk stops at the first common block or at the genesis; what it passed is exactly what is excluded. */
  lemma ExcludedExactly(b: Blocks, headID: Id, otherID: Id, id: Id, down: seq<Id>, ids: seq<Id>)
    requires b.Valid() && b.Has(headID) && b.Has(id)
    requires Walk(b, headID, otherID, id, down) && (OnOther(b, otherID, id) || Number(id) == 0)
    requires IsReverse(down, ids)
    ensures Excluded(b, headID, otherID, ids)
  {
    hide Number, b.Ancestor, b.Valid;
    forall x | x in ids ensures b.OnChain(headID, x) && !OnOther(b, otherID, x) && Number(x) > 0 {
      var i :| 0 <= i < |ids| && ids[i] == x;
      assert x == down[|ids| - 1 - i];
    }
    forall x | b.OnChain(headID, x) && !OnOther(b, otherID, x) && Number(x) > 0 ensures x in ids {
      if Number(x) <= Number(id) {
        AncestorOfAncestor(b, headID, Number(id), Number(x));
        ChainsNest(b, otherID, id, x);
      } else {
        var i := Number(headID) - Number(x);
        assert down[i] == x && ids[|down| - 1 - i] == x;
      }
    }
    forall i, j | 0 <= i < j < |ids| ensures Number(ids[i]) < Number(ids[j]) {
      assert ids[i] == down[|ids| - 1 - i] && ids[j] == down[|ids| - 1 - j];
    }
  }

  /** The genesis is on every chain, so it is never missed when both heads are known. */
  lemma CommonGenesis(b: Blocks, headID: Id, otherID: Id, x: Id)
    requires b.Valid() && b.Has(headID) && b.Has(otherID) && b.OnChain(headID, x) && Number(x) == 0
    ensures OnOther(b, otherID, x)
  {
    AncestorIsGenesis(b, headID);
    AncestorIsGenesis(b, otherID);
  }

  ghost predicate IsReverse(s: seq<Id>, r: seq<Id>) {
    |r| == |s| && forall k :: 0 <= k < |s| ==> r[k] == s[|s| - 1 - k] && r[|s| - 1 - k] == s[k]
  }

  method Reverse(s: seq<Id>) returns (r: seq<Id>)
    ensures IsReverse(s, r)
  {
    r := s;
    var i, j := 0, |s| - 1;
    while i < j
      invariant 0 <= i && j == |s| - 1 - i && i <= j + 1 && |r| == |s|
      invariant forall k :: 0 <= k < i ==> r[k] == s[|s| - 1 - k] && r[|s| - 1 - k] == s[k]
      invariant forall k :: i <= k <= j ==> r[k] == s[k]
    {
      r := r[i := r[j]][j := r[i]];
      i, j := i + 1, j - 1;
    }
  }

  lemma IndexSurvives(h: HashFn, db: Db, db': Db, ver: Version, v: Version, m: Contents)
    requires AddsBelow(db, db', ver, []) && Indexed(h, db, v, m)
    ensures Indexed(h, db', v, m)
  {
    T.OldRootsSurvive(Env(h, false, db), Env(h, false, db'), T.Root(INDEX_HASH, v), m);
  }

  lemma AddedVersion(db: Db, db': Db, ver: Version, k: (Hex, Version))
    requires AddsBelow(db, db', ver, []) && k in db' && k !in db
    ensures k.1 == ver
  {
  }
}
