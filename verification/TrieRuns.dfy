/** Whole runs of a trie: any sequence of reads, updates, hashings and commits. */
module TrieRuns {
  import opened ByteStrings
  import opened HexPrefix
  import opened TrieNode
  import opened TrieTree
  import opened TrieMerkle
  import opened TrieStore
  import opened TrieHasher
  import T = Trie

  datatype Op =
    | OpGet(key: Bytes)
    | OpUpdate(key: Bytes, val: Bytes, meta: Bytes)
    | OpHash
    | OpCommit(ver: Version, skipHash: bool)
    | OpTTL(ttl: Uint16)
    | OpReopen(at: nat, root: T.Root, key: Bytes) // reads a key through a new trie on what step `at` committed

  datatype Result = Done | Read(entry: Option<Entry>) | Hashed(hash: Bytes)

  /** The plain map that a run maintains. */
  function Apply(m: Contents, op: Op): Contents {
    match op
    case OpUpdate(key, val, meta) =>
      if val == [] then m - {KeybytesToHex(key)} else m[KeybytesToHex(key) := Entry(val, meta)]
    case _ => m
  }

  function ApplyAll(m: Contents, ops: seq<Op>): Contents {
    if ops == [] then m else Apply(ApplyAll(m, ops[..|ops| - 1]), ops[|ops| - 1])
  }

  /** Hashes are kept as long as no commit skips them. */
  predicate KeepsHashes(ops: seq<Op>) {
    forall i :: 0 <= i < |ops| && ops[i].OpCommit? ==> !ops[i].skipHash
  }

  /** What the code asks of a caller: fresh versions, storable sizes, hashes only where they were kept. */
  ghost predicate Allowed(h: HashFn, db: Db, m: Contents, hashed: bool, ops: seq<Op>) {
    && (forall i :: 0 <= i < |ops| && ops[i].OpCommit? ==>
          && FreshBelow(db, ops[i].ver, [])
          && T.Storable(ApplyAll(m, ops[..i]))
          && (ops[i].skipHash || (hashed && KeepsHashes(ops[..i]))))
    && (forall i :: 0 <= i < |ops| && ops[i].OpHash? ==> hashed && KeepsHashes(ops[..i]))
    && (forall i, j :: 0 <= i < j < |ops| && ops[i].OpCommit? && ops[j].OpCommit? ==> ops[i].ver != ops[j].ver)
    && (forall i :: 0 <= i < |ops| && ops[i].OpReopen? ==> MayReopen(h, m, ops, i))
  }

  /** A root can be opened if its version was committed, or if its hash stands for an empty trie. */
  ghost predicate MayReopen(h: HashFn, m: Contents, ops: seq<Op>, i: nat)
    requires i < |ops| && ops[i].OpReopen?
  {
    var op := ops[i];
    T.IsEmptyRoot(h, op.root) ||
      (op.at < i && ops[op.at].OpCommit? && ops[op.at].ver == op.root.ver && ApplyAll(m, ops[..op.at]) != map[])
  }

  /** The map a reopened root has: that of the commit, or none under a hash that stands for an empty trie. */
  ghost function Reopened(h: HashFn, m: Contents, ops: seq<Op>, i: nat): Contents
    requires i < |ops| && ops[i].OpReopen? && MayReopen(h, m, ops, i)
  {
    if T.IsEmptyRoot(h, ops[i].root) then map[] else ApplyAll(m, ops[..ops[i].at])
  }

  /** The Merkle root of a map. */
  ghost predicate IsHashOf(h: HashFn, m: Contents, hash: Bytes) {
    exists t: Tree :: WellFormed(t) && Agrees(t, m) && hash == RootHash(h, t)
  }

  /** Runs that end in the same map hash alike. */
  lemma OneHash(h: HashFn, m: Contents, x: Bytes, y: Bytes)
    requires IsHashOf(h, m, x) && IsHashOf(h, m, y)
    ensures x == y
  {
    var a: Tree :| WellFormed(a) && Agrees(a, m) && x == RootHash(h, a);
    var b: Tree :| WellFormed(b) && Agrees(b, m) && y == RootHash(h, b);
    OneTreePerMap(a, b, m);
  }

  /** What a commit of a map that is not empty leaves behind for good. */
  ghost predicate KeptAt(h: HashFn, db: Db, hashed: bool, ver: Version, m: Contents) {
    && T.OpensAt(Env(h, false, db), ver, [], m)
    && (hashed ==> forall hash :: IsHashOf(h, m, hash) ==> T.OpensAt(Env(h, true, db), ver, hash, m))
  }

  /** A root committed in the run opens with the map of that moment, with hashes if it was committed with them. */
  ghost predicate Kept(h: HashFn, db: Db, m: Contents, hashed: bool, ops: seq<Op>, i: nat)
    requires i < |ops|
  {
    var mi := ApplyAll(m, ops[..i]);
    ops[i].OpCommit? && mi != map[] ==> KeptAt(h, db, hashed && KeepsHashes(ops[..i + 1]), ops[i].ver, mi)
  }

  lemma OpensAtMonotone(e: Env, e': Env, ver: Version, rootHash: Bytes, m: Contents)
    requires e.h == e'.h && e.hashed == e'.hashed && Extends(e.db, e'.db) && m != map[]
             && T.OpensAt(e, ver, rootHash, m)
    ensures T.OpensAt(e', ver, rootHash, m)
  {
    hide T.Rooted;
    forall hash: Bytes | !e.hashed || hash == rootHash
      ensures T.Opens(e', T.Root(hash, ver), m) <==> !T.IsEmptyRoot(e.h, T.Root(hash, ver))
    {
      if !T.IsEmptyRoot(e.h, T.Root(hash, ver)) { T.OldRootsSurvive(e, e', T.Root(hash, ver), m); }
    }
  }

  lemma KeptMonotone(h: HashFn, db: Db, db': Db, m: Contents, hashed: bool, ops: seq<Op>, i: nat)
    requires i < |ops| && Extends(db, db') && Kept(h, db, m, hashed, ops, i)
    ensures Kept(h, db', m, hashed, ops, i)
  {
    hide T.OpensAt, Extends, IsHashOf;
    var mi, ver := ApplyAll(m, ops[..i]), if ops[i].OpCommit? then ops[i].ver else Version(0, 0);
    if ops[i].OpCommit? && mi != map[] {
      OpensAtMonotone(Env(h, false, db), Env(h, false, db'), ver, [], mi);
      if hashed && KeepsHashes(ops[..i + 1]) {
        forall hash | IsHashOf(h, mi, hash) ensures T.OpensAt(Env(h, true, db'), ver, hash, mi) {
          OpensAtMonotone(Env(h, true, db), Env(h, true, db'), ver, hash, mi);
        }
      }
    }
  }

  /** What a commit stores opens without hashes, and with them if they are kept. */
  lemma CommitKept(e: Env, ver: Version, t: Tree, m: Contents)
    requires WellFormed(t) && Agrees(t, m) && m != map[] && Rep(e, RefNode(Ref(RootHash(e.h, t), ver)), [], t)
    ensures KeptAt(e.h, e.db, e.hashed, ver, m)
  {
    hide RootHash, T.Opens, Loads;
    NilIffNil(e, RefNode(Ref(RootHash(e.h, t), ver)), [], t);
    var e' := e.(hashed := false);
    RepMonotone(e, e', RefNode(Ref(RootHash(e.h, t), ver)), [], t);
    T.StoredOpens(e', ver, t, m);
    T.StoredOpens(e, ver, t, m);
    if e.hashed {
      forall hash | IsHashOf(e.h, m, hash) ensures T.OpensAt(e, ver, hash, m) {
        OneHash(e.h, m, hash, RootHash(e.h, t));
      }
    }
  }

  /** Opens a root in a trie of its own and reads a key. */
  method ReadRoot(h: HashFn, db: NodeDb, r: T.Root, key: Bytes, ghost m: Contents) returns (result: Result)
    requires Hash32(h) && T.Opens(Env(h, false, db.m), r, m)
    ensures result == Read(Find(m, KeybytesToHex(key)))
  {
    hide T.Opens;
    var t := new T.Trie.Open(h, r, db, false, m);
    var o := t.Get(key);
    result := Read(o.value);
  }

  /** One step of a run; a commit leaves a root that opens with the map. */
  method Step(t: T.Trie, op: Op, ghost reopened: Contents) returns (result: Result)
    requires t.Valid()
    requires op.OpHash? ==> t.hashed
    requires op.OpCommit? ==> FreshBelow(t.db.m, op.ver, []) && T.Storable(t.contents) && (op.skipHash || t.hashed)
    requires op.OpReopen? ==> T.Opens(Env(t.h, false, t.db.m), op.root, reopened)
    modifies t, t.db
    ensures t.Valid() && t.contents == Apply(old(t.contents), op)
    ensures t.hashed == (old(t.hashed) && !(op.OpCommit? && op.skipHash))
    ensures if op.OpCommit? then AddsBelow(old(t.db.m), t.db.m, op.ver, []) else t.db.m == old(t.db.m)
    ensures op.OpCommit? && t.contents != map[] ==> KeptAt(t.h, t.db.m, t.hashed, op.ver, t.contents)
    ensures Answers(t.h, op, old(t.contents), reopened, result)
  {
    hide T.Opens, FreshBelow, T.Storable, AddsBelow, T.OpensAt, KeptAt, RootHash;
    result := Done;
    match op {
      case OpGet(key) =>
        var o := t.Get(key);
        result := Read(o.value);
      case OpUpdate(key, val, meta) => var o := t.Update(key, val, meta);
      case OpHash =>
        var hash := t.Hash();
        result := Hashed(hash);
      case OpTTL(ttl) => t.SetCacheTTL(ttl);
      case OpCommit(ver, skipHash) =>
        t.Commit(ver, skipHash);
        if t.contents != map[] { CommitKept(t.E(), ver, t.tree, t.contents); }
      case OpReopen(at, root, key) =>
        result := ReadRoot(t.h, t.db, root, key, reopened);
    }
  }

  /** What a step reports: reads of the map, the Merkle root of the map, reads of a reopened root. */
  ghost predicate Answers(h: HashFn, op: Op, m: Contents, reopened: Contents, result: Result) {
    match op
    case OpGet(key) => result == Read(Find(m, KeybytesToHex(key)))
    case OpHash => result.Hashed? && IsHashOf(h, m, result.hash)
    case OpReopen(_, _, key) => result == Read(Find(reopened, KeybytesToHex(key)))
    case _ => result == Done
  }

  predicate CommittedBefore(ops: seq<Op>, i: nat, ver: Version)
    requires i <= |ops|
  {
    exists j :: 0 <= j < i && ops[j].OpCommit? && ops[j].ver == ver
  }

  /** All blobs are old or belong to a commit of the run so far. */
  ghost predicate OnlyCommits(db0: Db, db: Db, ops: seq<Op>, i: nat)
    requires i <= |ops|
  {
    Extends(db0, db) && forall k :: k in db && k !in db0 ==> CommittedBefore(ops, i, k.1)
  }

  lemma StillFresh(h: HashFn, db0: Db, db: Db, m: Contents, hashed: bool, ops: seq<Op>, i: nat)
    requires i < |ops| && ops[i].OpCommit? && Allowed(h, db0, m, hashed, ops) && OnlyCommits(db0, db, ops, i)
    ensures FreshBelow(db, ops[i].ver, [])
  {
    assert FreshBelow(db0, ops[i].ver, []);
    assert !CommittedBefore(ops, i, ops[i].ver);
    forall q: Hex | [] <= q ensures (q, ops[i].ver) !in db { assert (q, ops[i].ver) !in db0; }
  }

  lemma OnlyCommitsStep(db0: Db, db1: Db, db2: Db, ops: seq<Op>, i: nat)
    requires i < |ops| && OnlyCommits(db0, db1, ops, i)
    requires if ops[i].OpCommit? then AddsBelow(db1, db2, ops[i].ver, []) else db2 == db1
    ensures OnlyCommits(db0, db2, ops, i + 1)
  {
    forall k | k in db2 && k !in db0 ensures CommittedBefore(ops, i + 1, k.1) {
      if k in db1 {
        var j :| 0 <= j < i && ops[j].OpCommit? && ops[j].ver == k.1;
        assert ops[j].ver == k.1;
      } else {
        assert ops[i].ver == k.1;
      }
    }
  }

  /** Where a run stands: the database, the map, whether hashes are kept, and what was read. */
  datatype Stand = Stand(db: Db, m: Contents, hashed: bool, results: seq<Result>)

  ghost predicate UpTo(h: HashFn, s0: Stand, ops: seq<Op>, i: nat, s: Stand)
    requires i <= |ops| && Allowed(h, s0.db, s0.m, s0.hashed, ops)
  {
    && s.m == ApplyAll(s0.m, ops[..i])
    && (s.hashed <==> s0.hashed && KeepsHashes(ops[..i]))
    && |s.results| == i
    && (forall j :: 0 <= j < i ==> Answered(h, s0.m, ops, j, s.results[j]))
    && OnlyCommits(s0.db, s.db, ops, i)
    && (forall j :: 0 <= j < i ==> Kept(h, s.db, s0.m, s0.hashed, ops, j))
  }

  /** What step i must have reported. */
  ghost predicate Answered(h: HashFn, m: Contents, ops: seq<Op>, i: nat, result: Result)
    requires i < |ops| && (ops[i].OpReopen? ==> MayReopen(h, m, ops, i))
  {
    Answers(h, ops[i], ApplyAll(m, ops[..i]), if ops[i].OpReopen? then Reopened(h, m, ops, i) else map[], result)
  }

  /** What Step promises, on values. */
  ghost predicate Stepped(h: HashFn, op: Op, reopened: Contents, s: Stand, s': Stand) {
    && s'.m == Apply(s.m, op)
    && s'.hashed == (s.hashed && !(op.OpCommit? && op.skipHash))
    && |s'.results| == |s.results| + 1 && s'.results[..|s.results|] == s.results
    && Answers(h, op, s.m, reopened, s'.results[|s.results|])
    && (if op.OpCommit? then AddsBelow(s.db, s'.db, op.ver, []) else s'.db == s.db)
    && (op.OpCommit? && s'.m != map[] ==> KeptAt(h, s'.db, s'.hashed, op.ver, s'.m))
  }

  lemma UpToStep(h: HashFn, s0: Stand, ops: seq<Op>, i: nat, s: Stand, s': Stand)
    requires Allowed(h, s0.db, s0.m, s0.hashed, ops) && i < |ops| && UpTo(h, s0, ops, i, s)
    requires Stepped(h, ops[i], if ops[i].OpReopen? then Reopened(h, s0.m, ops, i) else map[], s, s')
    ensures UpTo(h, s0, ops, i + 1, s')
  {
    hide AddsBelow, OnlyCommits, Find, Allowed, KeptAt, Answers, Reopened;
    assert ops[..i + 1] == ops[..i] + [ops[i]];
    OnlyCommitsStep(s0.db, s.db, s'.db, ops, i);
    StepExtends(s.db, s'.db, ops[i]);
    forall j | 0 <= j <= i ensures Kept(h, s'.db, s0.m, s0.hashed, ops, j) {
      if j < i { KeptMonotone(h, s.db, s'.db, s0.m, s0.hashed, ops, j); }
    }
    forall j | 0 <= j <= i
      ensures ops[j].OpReopen? ==> MayReopen(h, s0.m, ops, j)
      ensures Answered(h, s0.m, ops, j, s'.results[j])
    {
      AllowedReopen(h, s0, ops, j);
      if j < i { assert s'.results[j] == s.results[j]; }
    }
  }

  lemma AllowedReopen(h: HashFn, s0: Stand, ops: seq<Op>, i: nat)
    requires Allowed(h, s0.db, s0.m, s0.hashed, ops) && i < |ops|
    ensures ops[i].OpReopen? ==> MayReopen(h, s0.m, ops, i)
  {
    hide MayReopen;
  }

  lemma StepExtends(db: Db, db': Db, op: Op)
    requires if op.OpCommit? then AddsBelow(db, db', op.ver, []) else db' == db
    ensures Extends(db, db')
  {
  }

  /**
   A run reads and hashes as the plain map does, reads through any root it has committed what the map was
   then, and at its end every root it committed, and every root that could be opened before it, still
   opens with its own map.
   */
  method Run(t: T.Trie, ops: seq<Op>) returns (results: seq<Result>)
    requires t.Valid() && Allowed(t.h, t.db.m, t.contents, t.hashed, ops)
    modifies t, t.db
    ensures t.Valid() && t.contents == ApplyAll(old(t.contents), ops)
    ensures |results| == |ops| && forall i :: 0 <= i < |ops| ==> Answered(t.h, old(t.contents), ops, i, results[i])
    ensures Extends(old(t.db.m), t.db.m)
    ensures forall i :: 0 <= i < |ops| ==> Kept(t.h, t.db.m, old(t.contents), old(t.hashed), ops, i)
  {
    hide T.Opens, FreshBelow, T.Storable, AddsBelow, Kept, KeptAt, Answers, Apply, ApplyAll, UpTo, Answered;
    hide Extends, OnlyCommits, Allowed, Reopened, MayReopen;
    results := [];
    ghost var s0 := Stand(t.db.m, t.contents, t.hashed, []);
    UpToStart(t.h, s0, ops);
    for i := 0 to |ops|
      invariant t.Valid() && UpTo(t.h, s0, ops, i, Stand(t.db.m, t.contents, t.hashed, results))
    {
      ghost var s := Stand(t.db.m, t.contents, t.hashed, results);
      UpToAllows(t.h, s0, ops, i, s);
      ghost var reopened := if ops[i].OpReopen? then Reopened(t.h, s0.m, ops, i) else map[];
      var r := Step(t, ops[i], reopened);
      results := results + [r];
      UpToStep(t.h, s0, ops, i, s, Stand(t.db.m, t.contents, t.hashed, results));
    }
    UpToEnd(t.h, s0, ops, Stand(t.db.m, t.contents, t.hashed, results));
  }

  lemma UpToStart(h: HashFn, s0: Stand, ops: seq<Op>)
    requires s0.results == [] && Allowed(h, s0.db, s0.m, s0.hashed, ops)
    ensures UpTo(h, s0, ops, 0, s0)
  {
    assert ops[..0] == [];
  }

  /** What Step asks for, on values. */
  ghost predicate MayStep(h: HashFn, op: Op, reopened: Contents, s: Stand) {
    && (op.OpHash? ==> s.hashed)
    && (op.OpCommit? ==> FreshBelow(s.db, op.ver, []) && T.Storable(s.m) && (op.skipHash || s.hashed))
    && (op.OpReopen? ==> T.Opens(Env(h, false, s.db), op.root, reopened))
  }

  lemma UpToAllows(h: HashFn, s0: Stand, ops: seq<Op>, i: nat, s: Stand)
    requires Allowed(h, s0.db, s0.m, s0.hashed, ops) && i < |ops| && UpTo(h, s0, ops, i, s)
    ensures ops[i].OpReopen? ==> MayReopen(h, s0.m, ops, i)
    ensures MayStep(h, ops[i], if ops[i].OpReopen? then Reopened(h, s0.m, ops, i) else map[], s)
  {
    hide FreshBelow, T.Storable, AddsBelow, Find, T.Rooted;
    if ops[i].OpCommit? { StillFresh(h, s0.db, s.db, s0.m, s0.hashed, ops, i); }
    if ops[i].OpReopen? && !T.IsEmptyRoot(h, ops[i].root) { assert Kept(h, s.db, s0.m, s0.hashed, ops, ops[i].at); }
  }

  lemma UpToEnd(h: HashFn, s0: Stand, ops: seq<Op>, s: Stand)
    requires Allowed(h, s0.db, s0.m, s0.hashed, ops) && UpTo(h, s0, ops, |ops|, s)
    ensures s.m == ApplyAll(s0.m, ops) && |s.results| == |ops| && Extends(s0.db, s.db)
    ensures forall i :: 0 <= i < |ops| ==>
              (ops[i].OpReopen? ==> MayReopen(h, s0.m, ops, i)) && Answered(h, s0.m, ops, i, s.results[i])
    ensures forall i :: 0 <= i < |ops| ==> Kept(h, s.db, s0.m, s0.hashed, ops, i)
  {
    hide Kept, Answered, ApplyAll, MayReopen;
    assert ops[..|ops|] == ops;
  }
}
