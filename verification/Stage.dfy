/**
 Staging a state (state/state.go:406-546): the surviving journal is replayed into account, storage and
 code updates.  What a fresh state reads from the result is what the live state reads.
 */
module Stage {
  import opened ByteStrings
  import opened StackedMap
  import State
  import opened StateJournal
  import opened TrieNode

  // ---- ids of storage tries ----

  function NewID(ver: Version, n: nat): Bytes { Uint32Bytes(ver.major) + Uvarint(ver.minor) + Uvarint(n) }

  /** The bytes of an id: the major version in four, the minor version and the count as varints. */
  lemma NewIDBytes(major: Uint32, minor: Uint32, n: nat)
    requires minor < 128 && n < 128
    ensures var id := NewID(Version(major, minor), n);
            && |id| == 6 && id[4] == minor && id[5] == n
            && major == 0x100_0000 * (id[0] as nat) + 0x1_0000 * (id[1] as nat)
                        + 0x100 * (id[2] as nat) + (id[3] as nat)
  {
    Uint32Digits(major);
  }

  lemma NewIDInjective(v: Version, m: nat, v': Version, n: nat)
    requires m < TWO64 && n < TWO64 && NewID(v, m) == NewID(v', n)
    ensures v == v' && m == n
  {
    var id, id' := NewID(v, m), NewID(v', n);
    hide Uvarint, TakeUvarint, TakeUint32;
    assert |Uint32Bytes(v.major)| == |Uint32Bytes(v'.major)| == 4;
    hide Uint32Bytes;
    Uint32RoundTrip(v.major, id[4..]);
    Uint32RoundTrip(v'.major, id'[4..]);
    assert id == Uint32Bytes(v.major) + id[4..] && id' == Uint32Bytes(v'.major) + id'[4..];
    assert id[4..] == Uvarint(v.minor) + Uvarint(m) && id'[4..] == Uvarint(v'.minor) + Uvarint(n);
    UvarintRoundTrip(v.minor, Uvarint(m));
    UvarintRoundTrip(v'.minor, Uvarint(n));
    assert Uvarint(m) + [] == Uvarint(m) && Uvarint(n) + [] == Uvarint(n);
    UvarintRoundTrip(m, []);
    UvarintRoundTrip(n, []);
  }

  /** Stored accounts are not empty, and each storage trie has an id of its own. */
  ghost predicate WorldOk(w: World) {
    && (forall a :: a in w.accounts ==>
          !w.accounts[a].data.IsEmpty() && (w.accounts[a].data.storageRoot.Some? <==> w.accounts[a].storageID != []))
    && (forall a, b :: a in w.accounts && b in w.accounts && a != b && w.accounts[a].storageID != [] ==>
          w.accounts[a].storageID != w.accounts[b].storageID)
  }

  /** No stored id comes from the version that is being staged. */
  ghost predicate UnusedVersion(w: World, ver: Version) {
    forall a, n: nat :: a in w.accounts && n < TWO64 ==> w.accounts[a].storageID != NewID(ver, n)
  }

  // ---- replaying the journal ----

  datatype Changed = Changed(data: Account, storageID: Bytes, storage: StorageMap, base: Option<StorageMap>)

  type Changes = map<Address, Changed>

  /** getChanged: the account as it was loaded; its storage trie is at hand only if it was read before. */
  function Get(w: World, loaded: set<Address>, changes: Changes, a: Address): Changed {
    if a in changes then changes[a]
    else Changed(w.Load(a).data, w.Load(a).storageID, map[], if a in loaded then w.Load(a).data.storageRoot else None)
  }

  /** What a replayed prefix of the journal must have left for an account. */
  ghost predicate Tracks(w: World, loaded: set<Address>, j: Log, a: Address, c: Changed) {
    var root := if Barrier(j, a) == 0 then w.Load(a).data.storageRoot else None;
    && c.data == Acct(w, j, a)
    && c.base == (if a in loaded then root else None)
    && (forall k: Bytes :: RawOf(w, j, a, k) == if k in c.storage then c.storage[k] else StorageGet(root, k))
  }

  /** Replaying one entry, seen from one account. */
  function Replay(c: Changed, e: Change<Key, Val>, a: Address): Changed
    requires Typed(e)
  {
    match e.key
    case AcctKey(x) => if x == a then c.(data := e.value.acct) else c
    case CodeKey(_) => c
    case StorageKey(x, _, k) => if x == a then c.(storage := c.storage[k := e.value.raw]) else c
    case BarrierKey(x) => if x == a then c.(storage := map[], base := None) else c
  }

  lemma TracksStep(w: World, loaded: set<Address>, j: Log, e: Change<Key, Val>, a: Address, c: Changed)
    requires LogOk(j + [e]) && Typed(e) && Tracks(w, loaded, j, a, c)
    ensures Tracks(w, loaded, j + [e], a, Replay(c, e, a))
  {
    LogOkPrefix(j, e);
    LastOfOne(j, e, AcctKey(a));
    LastOfOne(j, e, BarrierKey(a));
    var c', b, b' := Replay(c, e, a), Barrier(j, a), Barrier(j + [e], a);
    var root := if b == 0 then w.Load(a).data.storageRoot else None;
    var root' := if b' == 0 then w.Load(a).data.storageRoot else None;
    forall k: Bytes
      ensures RawOf(w, j + [e], a, k) == if k in c'.storage then c'.storage[k] else StorageGet(root', k)
    {
      LastOfOne(j, e, StorageKey(a, b', k));
      assert RawOf(w, j, a, k) == if k in c.storage then c.storage[k] else StorageGet(root, k);
      if e.key == BarrierKey(a) { NothingBeyond(j, a, b', k); }
    }
  }

  /** An id is none, the stored one of the account, or one made in this stage. */
  ghost predicate IdOk(w: World, ver: Version, count: nat, a: Address, id: Bytes) {
    id == [] || id == w.Load(a).storageID || exists n: nat :: n < count && id == NewID(ver, n)
  }

  /** Ids stay apart, and storage is only collected under an id. */
  ghost predicate IdsOk(w: World, loaded: set<Address>, ver: Version, j: Log, changes: Changes, count: nat) {
    && (forall a :: a in changes ==>
          && IdOk(w, ver, count, a, changes[a].storageID)
          && (changes[a].storage != map[] ==> changes[a].storageID != [])
          && (Barrier(j, a) == 0 && w.Load(a).storageID != [] ==> changes[a].storageID == w.Load(a).storageID))
    && (forall a, b :: a in changes && b in changes && a != b && changes[a].storageID != [] ==>
          changes[a].storageID != changes[b].storageID)
  }

  lemma IdsUpdate(w: World, loaded: set<Address>, ver: Version, j: Log, e: Change<Key, Val>, changes: Changes,
                  count: nat, a: Address, c: Changed, count': nat)
    requires WorldOk(w) && UnusedVersion(w, ver) && IdsOk(w, loaded, ver, j, changes, count) && LogOk(j + [e])
    requires e.key.addr == a && count <= count' <= TWO64
    requires var old_ := Get(w, loaded, changes, a).storageID;
             || (c.storageID == old_ && !e.key.BarrierKey?)
             || (c.storageID == [] && e.key.BarrierKey?)
             || (c.storageID == NewID(ver, count) && count < count' && old_ == [] && !e.key.BarrierKey?)
    requires c.storage != map[] ==> c.storageID != []
    ensures IdsOk(w, loaded, ver, j + [e], changes[a := c], count')
  {
    hide NewID;
    LogOkPrefix(j, e);
    var changes' := changes[a := c];
    forall x: Address
      ensures Barrier(j + [e], x) == if e.key == BarrierKey(x) then Barrier(j, x) + 1 else Barrier(j, x)
    {
      LastOfOne(j, e, BarrierKey(x));
    }
    forall x | x in changes' ensures IdOk(w, ver, count', x, changes'[x].storageID) {
      if x != a { assert IdOk(w, ver, count, x, changes[x].storageID); }
    }
    forall x, y | x in changes' && y in changes' && x != y && changes'[x].storageID != []
      ensures changes'[x].storageID != changes'[y].storageID
    {
      if x == a {
        IdApart(w, loaded, ver, j, changes, count, a, c.storageID, y, count');
      } else if y == a && c.storageID != [] {
        IdApart(w, loaded, ver, j, changes, count, a, c.storageID, x, count');
      }
    }
  }

  /** The id an account gets is nobody else's. */
  lemma IdApart(w: World, loaded: set<Address>, ver: Version, j: Log, changes: Changes, count: nat,
                a: Address, id: Bytes, b: Address, count': nat)
    requires WorldOk(w) && UnusedVersion(w, ver) && IdsOk(w, loaded, ver, j, changes, count)
    requires count <= count' <= TWO64 && b in changes && a != b && id != []
    requires id == Get(w, loaded, changes, a).storageID || (id == NewID(ver, count) && count < count')
    ensures id != changes[b].storageID
  {
    hide NewID, LogOk;
    assert IdOk(w, ver, count, b, changes[b].storageID);
    if id == NewID(ver, count) && count < count' {
      if n: nat :| n < count && changes[b].storageID == NewID(ver, n) {
        if NewID(ver, n) == NewID(ver, count) { NewIDInjective(ver, n, ver, count); }
      }
    }
  }

  // ---- code ----

  /** The codes collected are the non-empty codes that were set, under their hashes. */
  ghost predicate CodesOk(h: Keccak, j: Log, codes: map<Bytes, Bytes>) {
    && (forall i :: 0 <= i < |j| && IsCode(j[i]) ==> h(j[i].value.code) in codes)
    && (forall x :: x in codes ==>
          exists i :: 0 <= i < |j| && IsCode(j[i]) && h(j[i].value.code) == x && codes[x] == j[i].value.code)
  }

  predicate IsCode(e: Change<Key, Val>) { e.key.CodeKey? && e.value.VCode? && e.value.code != [] }

  lemma CodesStep(h: Keccak, j: Log, e: Change<Key, Val>, codes: map<Bytes, Bytes>)
    requires CodesOk(h, j, codes)
    ensures CodesOk(h, j + [e], if IsCode(e) then codes[h(e.value.code) := e.value.code] else codes)
  {
    var j', codes' := j + [e], if IsCode(e) then codes[h(e.value.code) := e.value.code] else codes;
    assert j'[|j|] == e && forall i :: 0 <= i < |j| ==> j'[i] == j[i];
    forall x | x in codes'
      ensures exists i :: 0 <= i < |j'| && IsCode(j'[i]) && h(j'[i].value.code) == x && codes'[x] == j'[i].value.code
    {
      if IsCode(e) && x == h(e.value.code) {
        assert IsCode(j'[|j|]);
      } else {
        var i :| 0 <= i < |j| && IsCode(j[i]) && h(j[i].value.code) == x && codes[x] == j[i].value.code;
        assert IsCode(j'[i]);
      }
    }
  }

  lemma PrefixOk(j: Log, n: nat)
    requires LogOk(j) && n <= |j|
    ensures LogOk(j[..n])
  {
    forall i | 0 <= i < n
      ensures && Typed(j[..n][i])
              && (j[i].key.StorageKey? ==> j[i].key.barrier == Barrier(j[..n][..i], j[i].key.addr))
              && (j[i].key.BarrierKey? ==> j[i].value.n == Barrier(j[..n][..i], j[i].key.addr) + 1)
    {
      assert j[..n][..i] == j[..i];
    }
  }

  /** What the walk has collected after a prefix of the journal. */
  ghost predicate Replayed(w: World, h: Keccak, loaded: set<Address>, ver: Version, j: Log,
                           changes: Changes, codes: map<Bytes, Bytes>, count: nat) {
    && LogOk(j)
    && (forall a: Address :: Tracks(w, loaded, j, a, Get(w, loaded, changes, a)))
    && IdsOk(w, loaded, ver, j, changes, count)
    && CodesOk(h, j, codes)
  }

  /** Stage's walk over the journal. */
  method ReplayJournal(w: World, h: Keccak, j: Log, loaded: set<Address>, ver: Version)
    returns (changes: Changes, codes: map<Bytes, Bytes>, count: nat)
    requires WorldOk(w) && UnusedVersion(w, ver) && LogOk(j) && |j| < TWO64
    ensures Replayed(w, h, loaded, ver, j, changes, codes, count) && count <= |j|
  {
    changes, codes, count := map[], map[], 0;
    hide Replayed, WorldOk, UnusedVersion, LogOk, NewID;
    assert j[..0] == [];
    NothingReplayed(w, h, loaded, ver);
    for i := 0 to |j|
      invariant count <= i
      invariant Replayed(w, h, loaded, ver, j[..i], changes, codes, count)
    {
      assert j[..i + 1] == j[..i] + [j[i]];
      PrefixOk(j, i + 1);
      changes, codes, count := ReplayEntry(w, h, loaded, ver, j[..i], j[i], changes, codes, count);
    }
    assert j[..|j|] == j;
  }

  lemma NothingReplayed(w: World, h: Keccak, loaded: set<Address>, ver: Version)
    ensures Replayed(w, h, loaded, ver, [], map[], map[], 0)
  {
    hide NewID;
  }

  /** One case of the walk. */
  method ReplayEntry(w: World, h: Keccak, loaded: set<Address>, ver: Version, ghost j: Log, e: Change<Key, Val>,
                     changes: Changes, codes: map<Bytes, Bytes>, count: nat)
    returns (changes': Changes, codes': map<Bytes, Bytes>, count': nat)
    requires WorldOk(w) && UnusedVersion(w, ver) && count < TWO64 && LogOk(j + [e])
    requires Replayed(w, h, loaded, ver, j, changes, codes, count)
    ensures Replayed(w, h, loaded, ver, j + [e], changes', codes', count')
    ensures count <= count' <= count + 1
  {
    LogOkPrefix(j, e);
    CodesStep(h, j, e, codes);
    ghost var log := j + [e];
    hide Tracks, IdsOk, CodesOk, WorldOk, UnusedVersion, NewID, LogOk;
    changes', codes', count' := changes, codes, count;
    var a := e.key.addr;
    var c := Get(w, loaded, changes, a);
    StorageHasId(w, loaded, ver, j, changes, count, a);
    match e.key {
      case AcctKey(_) =>
        c := c.(data := e.value.acct);
      case CodeKey(_) =>
        if e.value.code != [] { codes' := codes[h(e.value.code) := e.value.code]; }
      case StorageKey(_, _, k) =>
        c := c.(storage := c.storage[k := e.value.raw]);
        if c.storageID == [] {
          c := c.(storageID := NewID(ver, count));
          count' := count + 1;
        }
      case BarrierKey(_) =>
        c := c.(storage := map[], base := None, storageID := []);
    }
    if e.key.CodeKey? {
      IdsSame(w, loaded, ver, j, e, changes, count);
    } else {
      changes' := changes[a := c];
      IdsUpdate(w, loaded, ver, j, e, changes, count, a, c, count');
    }
    AllTrackStep(w, loaded, j, e, changes, changes');
  }

  lemma AllTrackStep(w: World, loaded: set<Address>, j: Log, e: Change<Key, Val>, changes: Changes, changes': Changes)
    requires LogOk(j + [e]) && Typed(e)
    requires forall a: Address :: Tracks(w, loaded, j, a, Get(w, loaded, changes, a))
    requires e.key.CodeKey? ==> changes' == changes
    requires !e.key.CodeKey? ==>
               var a := e.key.addr;
               && a in changes' && changes' == changes[a := changes'[a]]
               && changes'[a] == Replay(Get(w, loaded, changes, a), e, a).(storageID := changes'[a].storageID)
    ensures forall a: Address :: Tracks(w, loaded, j + [e], a, Get(w, loaded, changes', a))
  {
    hide Tracks, LogOk;
    forall a: Address ensures Tracks(w, loaded, j + [e], a, Get(w, loaded, changes', a)) {
      TracksStep(w, loaded, j, e, a, Get(w, loaded, changes, a));
      TracksIgnoresId(w, loaded, j + [e], a, Replay(Get(w, loaded, changes, a), e, a), Get(w, loaded, changes', a));
    }
  }

  lemma TracksIgnoresId(w: World, loaded: set<Address>, j: Log, a: Address, c: Changed, d: Changed)
    requires Tracks(w, loaded, j, a, c) && d == c.(storageID := d.storageID)
    ensures Tracks(w, loaded, j, a, d)
  {}

  lemma StorageHasId(w: World, loaded: set<Address>, ver: Version, j: Log, changes: Changes, count: nat, a: Address)
    requires IdsOk(w, loaded, ver, j, changes, count)
    ensures var c := Get(w, loaded, changes, a); c.storage != map[] ==> c.storageID != []
  {}

  lemma IdsSame(w: World, loaded: set<Address>, ver: Version, j: Log, e: Change<Key, Val>, changes: Changes, count: nat)
    requires IdsOk(w, loaded, ver, j, changes, count) && e.key.CodeKey?
    ensures IdsOk(w, loaded, ver, j + [e], changes, count)
  {
    hide NewID;
    forall a | a in changes ensures Barrier(j + [e], a) == Barrier(j, a) {
      LastOfOne(j, e, BarrierKey(a));
    }
  }

  // ---- saving ----

  /** Writing the collected values into a storage trie; an empty value removes the key. */
  method SaveStorage(base: Option<StorageMap>, storage: StorageMap) returns (m: StorageMap)
    ensures forall k: Bytes :: StorageGet(Some(m), k) == if k in storage then storage[k] else StorageGet(base, k)
  {
    m := if base.Some? then base.value else map[];
    var todo := storage.Keys;
    while todo != {}
      invariant todo <= storage.Keys
      invariant forall k: Bytes :: StorageGet(Some(m), k) ==
                  if k in storage && k !in todo then storage[k] else StorageGet(base, k)
    {
      var k :| k in todo;
      if storage[k] == [] { m := m - {k}; } else { m := m[k := storage[k]]; }
      todo := todo - {k};
    }
  }

  function Entry(accounts: map<Address, Stored>, a: Address): Option<Stored> {
    if a in accounts then Some(accounts[a]) else None
  }

  /** An account entry that reads as the live account does; an empty account leaves nothing, not even storage. */
  ghost predicate Saved(w: World, j: Log, a: Address, r: Option<Stored>) {
    match r
    case None => Acct(w, j, a).IsEmpty()
    case Some(s) =>
      && !Acct(w, j, a).IsEmpty()
      && s.data == Acct(w, j, a).(storageRoot := s.data.storageRoot)
      && (forall k: Bytes :: StorageGet(s.data.storageRoot, k) == RawOf(w, j, a, k))
      && (s.data.storageRoot.Some? <==> s.storageID != [])
  }

  method SaveChanged(w: World, h: Keccak, loaded: set<Address>, ghost j: Log, a: Address, c: Changed)
    returns (r: Option<Stored>)
    requires AccountOk(w, h, j, a) && Tracks(w, loaded, j, a, c)
    requires c.storage != map[] ==> c.storageID != []
    requires c.data.storageRoot.Some? ==> c.storageID != []
    ensures Saved(w, j, a, r)
    ensures r.Some? ==> r.value.storageID == [] || r.value.storageID == c.storageID
  {
    var data := c.data;
    if data.IsEmpty() { return None; }
    if c.storage != map[] {
      var m := SaveStorage(if c.base.Some? then c.base else data.storageRoot, c.storage);
      data := data.(storageRoot := Some(m));
    }
    return Some(Stored(data, if data.storageRoot.Some? then c.storageID else []));
  }

  /** All accounts but those in todo stand in the trie in their saved form, under their ids. */
  ghost predicate SavedBut(w: World, loaded: set<Address>, j: Log, changes: Changes, accounts: map<Address, Stored>,
                           todo: set<Address>) {
    forall a: Address :: a !in todo ==>
      && Saved(w, j, a, Entry(accounts, a))
      && (a in accounts ==>
            accounts[a].storageID == [] || accounts[a].storageID == Get(w, loaded, changes, a).storageID)
  }

  /** Writing the accounts back, in any order. */
  method SaveAll(w: World, h: Keccak, loaded: set<Address>, ghost ver: Version, ghost j: Log, changes: Changes,
                 ghost count: nat)
    returns (accounts: map<Address, Stored>)
    requires WorldOk(w) && BoundaryOk(w, h, j) && IdsOk(w, loaded, ver, j, changes, count)
    requires forall a: Address :: Tracks(w, loaded, j, a, Get(w, loaded, changes, a))
    ensures SavedBut(w, loaded, j, changes, accounts, {})
  {
    accounts := w.accounts;
    var todo := changes.Keys;
    forall a: Address | a !in todo ensures Saved(w, j, a, Entry(accounts, a)) {
      UntouchedSaved(w, h, loaded, j, changes, a);
    }
    assert SavedBut(w, loaded, j, changes, accounts, todo);
    hide Tracks, Saved, IdsOk, WorldOk, BoundaryOk, AccountOk, SavedBut;
    while todo != {}
      invariant todo <= changes.Keys
      invariant SavedBut(w, loaded, j, changes, accounts, todo)
    {
      var a :| a in todo;
      RootHasId(w, h, loaded, ver, j, changes, count, a);
      var r := SaveChanged(w, h, loaded, j, a, changes[a]);
      SavedStep(w, loaded, j, changes, accounts, todo, a, r);
      if r.Some? { accounts := accounts[a := r.value]; } else { accounts := accounts - {a}; }
      todo := todo - {a};
    }
  }

  lemma SavedStep(w: World, loaded: set<Address>, j: Log, changes: Changes, accounts: map<Address, Stored>,
                  todo: set<Address>, a: Address, r: Option<Stored>)
    requires SavedBut(w, loaded, j, changes, accounts, todo) && a in changes && Saved(w, j, a, r)
    requires r.Some? ==> r.value.storageID == [] || r.value.storageID == changes[a].storageID
    ensures SavedBut(w, loaded, j, changes, if r.Some? then accounts[a := r.value] else accounts - {a}, todo - {a})
  {
    hide Saved;
    var accounts' := if r.Some? then accounts[a := r.value] else accounts - {a};
    assert forall x: Address :: Entry(accounts', x) == if x == a then r else Entry(accounts, x);
  }

  lemma RootHasId(w: World, h: Keccak, loaded: set<Address>, ver: Version, j: Log, changes: Changes, count: nat,
                  a: Address)
    requires WorldOk(w) && BoundaryOk(w, h, j) && IdsOk(w, loaded, ver, j, changes, count) && a in changes
    requires forall x: Address :: Tracks(w, loaded, j, x, Get(w, loaded, changes, x))
    ensures AccountOk(w, h, j, a) && Tracks(w, loaded, j, a, changes[a])
    ensures changes[a].storage != map[] ==> changes[a].storageID != []
    ensures changes[a].data.storageRoot.Some? ==> changes[a].storageID != []
  {
    assert Tracks(w, loaded, j, a, Get(w, loaded, changes, a));
  }

  lemma UntouchedSaved(w: World, h: Keccak, loaded: set<Address>, j: Log, changes: Changes, a: Address)
    requires WorldOk(w) && BoundaryOk(w, h, j) && a !in changes
    requires Tracks(w, loaded, j, a, Get(w, loaded, changes, a))
    ensures Saved(w, j, a, Entry(w.accounts, a))
  {
    assert AccountOk(w, h, j, a);
  }

  // ---- the staged state ----

  /** What a state opened on w' reads is what the live state reads, except that an empty account loses its storage. */
  ghost predicate ReadsBack(w: World, j: Log, w': World, a: Address) {
    if Acct(w, j, a).IsEmpty() then a !in w'.accounts
    else
      && a in w'.accounts
      && Acct(w', [], a) == Acct(w, j, a).(storageRoot := Acct(w', [], a).storageRoot)
      && forall k: Bytes :: RawOf(w', [], a, k) == RawOf(w, j, a, k)
  }

  /** The account has a balance, energy, a master or code. */
  predicate Holds(a: Account) { a.balance != 0 || a.energy != 0 || a.master != [] || a.codeHash != [] }

  predicate FieldsSurvive(a: Account, b: Account) {
    b.balance == a.balance && b.energy == a.energy && b.master == a.master && b.codeHash == a.codeHash
  }

  /** Nothing an account holds is lost by staging, and exactly the accounts that hold something are stored. */
  lemma AccountSurvives(w: World, j: Log, w': World, a: Address)
    requires ReadsBack(w, j, w', a)
    ensures FieldsSurvive(Acct(w, j, a), Acct(w', [], a))
    ensures a in w'.accounts <==> Holds(Acct(w, j, a))
  {
  }

  /** The id of a saved account is kept from before or made in this stage, and it is nobody else's. */
  lemma SavedWorldOk(w: World, loaded: set<Address>, ver: Version, j: Log, changes: Changes, count: nat,
                     accounts: map<Address, Stored>, codes: map<Bytes, Bytes>)
    requires WorldOk(w) && UnusedVersion(w, ver) && count < TWO64
    requires IdsOk(w, loaded, ver, j, changes, count) && SavedBut(w, loaded, j, changes, accounts, {})
    ensures WorldOk(World(accounts, codes))
    ensures forall a :: a in accounts ==> IdOk(w, ver, count, a, accounts[a].storageID)
  {
    hide NewID, Tracks, LogOk;
    forall a | a in accounts
      ensures !accounts[a].data.IsEmpty() && (accounts[a].data.storageRoot.Some? <==> accounts[a].storageID != [])
      ensures IdOk(w, ver, count, a, accounts[a].storageID)
    {
      assert Saved(w, j, a, Entry(accounts, a));
    }
    forall a, b | a in accounts && b in accounts && a != b && accounts[a].storageID != []
      ensures accounts[a].storageID != accounts[b].storageID
    {
      assert Saved(w, j, a, Entry(accounts, a)) && Saved(w, j, b, Entry(accounts, b));
      if b in changes {
        IdApart(w, loaded, ver, j, changes, count, a, accounts[a].storageID, b, count);
      } else if a in changes {
        assert IdOk(w, ver, count, a, changes[a].storageID);
      }
    }
  }

  lemma SavedReadsBack(w: World, loaded: set<Address>, j: Log, changes: Changes, w': World, a: Address)
    requires SavedBut(w, loaded, j, changes, w'.accounts, {})
    ensures ReadsBack(w, j, w', a)
  {
    assert Saved(w, j, a, Entry(w'.accounts, a));
  }

  /** Codes are kept under their hashes. */
  ghost predicate CodesFit(h: Keccak, codes: map<Bytes, Bytes>) {
    forall x :: x in codes ==> h(codes[x]) == x && codes[x] != []
  }

  ghost predicate Known(codes: map<Bytes, Bytes>, j: Log, c: Bytes) {
    (exists x :: x in codes && codes[x] == c) || (exists i :: 0 <= i < |j| && IsCode(j[i]) && j[i].value.code == c)
  }

  /** No two codes at hand share a hash, and no hash is empty. */
  ghost predicate NoCollisions(h: Keccak, codes: map<Bytes, Bytes>, j: Log) {
    && (forall c: Bytes :: h(c) != [])
    && (forall c, d :: Known(codes, j, c) && Known(codes, j, d) && h(c) == h(d) ==> c == d)
  }

  lemma {:induction false} LastIsThere(j: Log, k: Key)
    ensures match Last(j, k) case None => true case Some(v) => exists i :: 0 <= i < |j| && j[i] == Change(k, v)
  {
    if j != [] && j[|j| - 1].key != k {
      var j0 := j[..|j| - 1];
      LastIsThere(j0, k);
      if Last(j0, k).Some? {
        var i :| 0 <= i < |j0| && j0[i] == Change(k, Last(j0, k).value);
        assert j[i] == Change(k, Last(j, k).value);
      }
    }
  }

  lemma CodeReadsBack(w: World, h: Keccak, j: Log, codes: map<Bytes, Bytes>, w': World, a: Address)
    requires CodesFit(h, w.codes) && NoCollisions(h, w.codes, j) && CodesOk(h, j, codes)
    requires LogOk(j) && AccountOk(w, h, j, a)
    requires w'.codes == w.codes + codes && ReadsBack(w, j, w', a)
    ensures CodeOf(w, j, a).Got? ==> CodeOf(w', [], a) == CodeOf(w, j, a)
  {
    var last := Last<Key, Val>(j, CodeKey(a));
    LastIsThere(j, CodeKey(a));
    assert w'.Load(a).data.codeHash == Acct(w, j, a).codeHash;
    if last.Some? && last.value.VCode? && last.value.code != [] {
      StoredCode(w, h, j, codes, last.value.code);
    } else if last.None? && w.Load(a).data.codeHash in w.codes {
      StoredCode(w, h, j, codes, w.codes[w.Load(a).data.codeHash]);
    }
  }

  /** Every code at hand is found under its hash. */
  lemma StoredCode(w: World, h: Keccak, j: Log, codes: map<Bytes, Bytes>, c: Bytes)
    requires CodesFit(h, w.codes) && NoCollisions(h, w.codes, j) && CodesOk(h, j, codes) && Known(w.codes, j, c)
    ensures h(c) in w.codes + codes && (w.codes + codes)[h(c)] == c
  {
    var all := w.codes + codes;
    if x :| x in w.codes && w.codes[x] == c {
      assert x == h(c) && x in all;
    } else {
      var i :| 0 <= i < |j| && IsCode(j[i]) && j[i].value.code == c;
      assert h(c) in codes && h(c) in all;
    }
    assert Known(w.codes, j, all[h(c)]) && h(all[h(c)]) == h(c);
  }

  /**
   Stage and commit.  The staged state is sound, reads as the live one, and uses ids that no other version makes.
   `loaded` tells for which accounts a storage trie is at hand.
   */
  method Stage(st: State.State, loaded: set<Address>, ver: Version) returns (w': World)
    requires st.Valid() && WorldOk(st.w) && UnusedVersion(st.w, ver) && |st.J()| < TWO64
    ensures WorldOk(w') && forall a: Address :: ReadsBack(st.w, st.J(), w', a)
    ensures forall a: Address :: FieldsSurvive(Acct(st.w, st.J(), a), Acct(w', [], a))
    ensures forall a: Address :: a in w'.accounts <==> Holds(Acct(st.w, st.J(), a))
    ensures forall v :: UnusedVersion(st.w, v) && v != ver ==> UnusedVersion(w', v)
    ensures CodesFit(st.h, st.w.codes) ==> CodesFit(st.h, w'.codes)
    ensures CodesFit(st.h, st.w.codes) && NoCollisions(st.h, st.w.codes, st.J()) ==>
              forall a: Address :: CodeOf(st.w, st.J(), a).Got? ==> CodeOf(w', [], a) == CodeOf(st.w, st.J(), a)
  {
    var w, h, j := st.w, st.h, Journal(st.sm.mapStack);
    assert BoundaryOk(w, h, j) by { st.ReadsJournal(BarrierKey([])); }
    var changes, codes, count := ReplayJournal(w, h, j, loaded, ver);
    var accounts := SaveAll(w, h, loaded, ver, j, changes, count);
    w' := World(accounts, w.codes + codes);
    hide IdsOk, Tracks, CodesOk, SavedBut, ReadsBack, WorldOk, NoCollisions, AccountOk, NewID, IdOk, UnusedVersion;
    SavedWorldOk(w, loaded, ver, j, changes, count, accounts, w'.codes);
    forall a: Address
      ensures ReadsBack(w, j, w', a) && FieldsSurvive(Acct(w, j, a), Acct(w', [], a))
      ensures a in w'.accounts <==> Holds(Acct(w, j, a))
    {
      SavedReadsBack(w, loaded, j, changes, w', a);
      AccountSurvives(w, j, w', a);
    }
    forall v | UnusedVersion(w, v) && v != ver ensures UnusedVersion(w', v) { OtherVersions(w, ver, count, w', v); }
    if CodesFit(h, w.codes) {
      StillFit(h, w.codes, j, codes);
      if NoCollisions(h, w.codes, j) {
        forall a: Address ensures CodeOf(w, j, a).Got? ==> CodeOf(w', [], a) == CodeOf(w, j, a) {
          CodeReadsBack(w, h, j, codes, w', a);
        }
      }
    }
  }

  lemma StillFit(h: Keccak, stored: map<Bytes, Bytes>, j: Log, codes: map<Bytes, Bytes>)
    requires CodesFit(h, stored) && CodesOk(h, j, codes)
    ensures CodesFit(h, stored + codes)
  {}

  lemma OtherVersions(w: World, ver: Version, count: nat, w': World, v: Version)
    requires UnusedVersion(w, v) && v != ver && count < TWO64
    requires forall a :: a in w'.accounts ==> IdOk(w, ver, count, a, w'.accounts[a].storageID)
    ensures UnusedVersion(w', v)
  {
    forall a, n: nat | a in w'.accounts && n < TWO64 ensures w'.accounts[a].storageID != NewID(v, n) {
      assert |NewID(v, n)| >= 4;
      if m: nat :| m < count && w'.accounts[a].storageID == NewID(ver, m) && NewID(ver, m) == NewID(v, n) {
        NewIDInjective(ver, m, v, n);
      }
    }
  }

  /** Storage reads survive staging unless the account holds nothing and still has storage. */
  lemma StorageSurvivesIff(w: World, j: Log, w': World, a: Address)
    requires ReadsBack(w, j, w', a)
    ensures (forall k: Bytes :: RawOf(w', [], a, k) == RawOf(w, j, a, k))
            <==> (Holds(Acct(w, j, a)) || forall k: Bytes :: RawOf(w, j, a, k) == [])
  {
    if !Holds(Acct(w, j, a)) {
      assert forall k: Bytes :: RawOf(w', [], a, k) == [];
    }
  }

  /** Such accounts exist: storage may be written to an empty account. */
  lemma StorageOfEmptyAccount(w: World, h: Keccak, j: Log, a: Address, k: Bytes)
    requires BoundaryOk(w, h, j) && !Holds(Acct(w, j, a))
    ensures var j' := j + [Change(StorageKey(a, Barrier(j, a), k), VRaw([1]))];
            BoundaryOk(w, h, j') && !Holds(Acct(w, j', a)) && RawOf(w, j', a, k) == [1]
  {
    StorageKeeps(w, h, j, a, k, [1]);
    hide BoundaryOk;
    var c := Change(StorageKey(a, Barrier(j, a), k), VRaw([1]));
    LastOfOne(j, c, StorageKey(a, Barrier(j, a), k));
    LastOfOne(j, c, BarrierKey(a));
    LastOfOne(j, c, AcctKey(a));
  }
}
