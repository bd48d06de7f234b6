/**
 What the journal of a state means (state/state.go): accounts, code, storage, and the storage barriers
 that account deletion raises.
 */
module StateJournal {
  import opened ByteStrings
  import opened StackedMap

  type Address = Bytes
  type Raw = Bytes                       // storage values in rlp, empty for none
  type StorageMap = map<Bytes, Raw>

  /** A storage root stands for the contents of its trie; None is the zero-length root. */
  datatype Account = Account(balance: int, energy: int, blockTime: nat, master: Bytes, codeHash: Bytes,
                             storageRoot: Option<StorageMap>) {
    predicate IsEmpty() { balance == 0 && energy == 0 && master == [] && codeHash == [] }
  }

  const EMPTY_ACCOUNT := Account(0, 0, 0, [], [], None)

  /** An account in the trie with the id of its storage trie. */
  datatype Stored = Stored(data: Account, storageID: Bytes)

  /** The committed state a run starts from. */
  datatype World = World(accounts: map<Address, Stored>, codes: map<Bytes, Bytes>) {
    function Load(a: Address): Stored {
      if a in accounts then accounts[a] else Stored(EMPTY_ACCOUNT, [])
    }
  }

  function StorageGet(root: Option<StorageMap>, k: Bytes): Raw {
    match root
    case None => []
    case Some(m) => if k in m then m[k] else []
  }

  datatype Key =
    | AcctKey(addr: Address)
    | CodeKey(addr: Address)
    | StorageKey(addr: Address, barrier: nat, key: Bytes)
    | BarrierKey(addr: Address)

  datatype Val = VAcct(acct: Account) | VCode(code: Bytes) | VRaw(raw: Raw) | VBarrier(n: nat)

  type Log = seq<Change<Key, Val>>

  /** cacheGetter: what a key reads as when the run has not touched it. */
  function Source(w: World, k: Key): Got<Val> {
    match k
    case AcctKey(a) => Got(VAcct(w.Load(a).data))
    case CodeKey(a) =>
      var hash := w.Load(a).data.codeHash;
      if hash == [] then Got(VCode([])) else if hash in w.codes then Got(VCode(w.codes[hash])) else Failed
    case StorageKey(a, b, key) =>
      Got(VRaw(if b != 0 then [] else StorageGet(w.Load(a).data.storageRoot, key)))
    case BarrierKey(_) => Got(VBarrier(0))
  }

  predicate Typed(c: Change<Key, Val>) {
    match c.key
    case AcctKey(_) => c.value.VAcct?
    case CodeKey(_) => c.value.VCode?
    case StorageKey(_, _, _) => c.value.VRaw?
    case BarrierKey(_) => c.value.VBarrier?
  }

  // ---- live reads ----

  function Acct(w: World, j: Log, a: Address): Account {
    match Last<Key, Val>(j, AcctKey(a))
    case Some(VAcct(x)) => x
    case _ => w.Load(a).data
  }

  function Barrier(j: Log, a: Address): nat {
    match Last<Key, Val>(j, BarrierKey(a))
    case Some(VBarrier(n)) => n
    case _ => 0
  }

  function RawAt(w: World, j: Log, a: Address, b: nat, k: Bytes): Raw {
    match Last<Key, Val>(j, StorageKey(a, b, k))
    case Some(VRaw(r)) => r
    case _ => if b != 0 then [] else StorageGet(w.Load(a).data.storageRoot, k)
  }

  /** GetRawStorage reads behind the current barrier. */
  function RawOf(w: World, j: Log, a: Address, k: Bytes): Raw { RawAt(w, j, a, Barrier(j, a), k) }

  /** GetCode: the code last set, or else what the code hash leads to in the code store. */
  function CodeOf(w: World, j: Log, a: Address): Got<Bytes> {
    match Last<Key, Val>(j, CodeKey(a))
    case Some(VCode(c)) => Got(c)
    case Some(_) => Failed
    case None => match Source(w, CodeKey(a)) case Got(VCode(c)) => Got(c) case _ => Failed
  }

  // ---- what every run keeps ----

  /** Storage is written behind the barrier of the moment, and barriers rise by one. */
  ghost predicate LogOk(j: Log) {
    forall i :: 0 <= i < |j| ==>
      && Typed(j[i])
      && (j[i].key.StorageKey? ==> j[i].key.barrier == Barrier(j[..i], j[i].key.addr))
      && (j[i].key.BarrierKey? ==> j[i].value.n == Barrier(j[..i], j[i].key.addr) + 1)
  }

  type Keccak = Bytes -> Bytes

  function CodeHash(h: Keccak, code: Bytes): Bytes { if code == [] then [] else h(code) }

  /** SetMaster: the zero address is stored as no master. */
  function MasterOf(master: Bytes): (m: Bytes)
    ensures (exists i :: 0 <= i < |master| && master[i] != 0) ==> m == master
    ensures m != [] ==> exists i :: 0 <= i < |m| && m[i] != 0
  {
    if forall i :: 0 <= i < |master| ==> master[i] == 0 then [] else master
  }

  /** A deleted account has lost its storage root, any other has kept it; the code hash fits the code. */
  ghost predicate AccountOk(w: World, h: Keccak, j: Log, a: Address) {
    && Acct(w, j, a).storageRoot == (if Barrier(j, a) == 0 then w.Load(a).data.storageRoot else None)
    && Acct(w, j, a).codeHash ==
         match Last<Key, Val>(j, CodeKey(a))
         case Some(VCode(c)) => CodeHash(h, c)
         case _ => w.Load(a).data.codeHash
  }

  /** What holds of the journal between two operations. */
  ghost predicate BoundaryOk(w: World, h: Keccak, j: Log) {
    LogOk(j) && forall a: Address :: AccountOk(w, h, j, a)
  }

  lemma LastOfOne(j: Log, c: Change<Key, Val>, k: Key)
    ensures Last(j + [c], k) == if c.key == k then Some(c.value) else Last(j, k)
  {
    assert (j + [c])[..|j|] == j;
  }

  lemma LogOkStep(j: Log, c: Change<Key, Val>)
    requires LogOk(j) && Typed(c)
    requires c.key.StorageKey? ==> c.key.barrier == Barrier(j, c.key.addr)
    requires c.key.BarrierKey? ==> c.value.n == Barrier(j, c.key.addr) + 1
    ensures LogOk(j + [c])
  {
    var j' := j + [c];
    forall i | 0 <= i < |j'|
      ensures && Typed(j'[i])
              && (j'[i].key.StorageKey? ==> j'[i].key.barrier == Barrier(j'[..i], j'[i].key.addr))
              && (j'[i].key.BarrierKey? ==> j'[i].value.n == Barrier(j'[..i], j'[i].key.addr) + 1)
    {
      assert j'[..i] == if i < |j| then j[..i] else j;
    }
  }

  /** A setter of account fields keeps the invariant as long as it copies root and code hash. */
  lemma SetterKeeps(w: World, h: Keccak, j: Log, a: Address, acct: Account)
    requires BoundaryOk(w, h, j)
    requires acct.storageRoot == Acct(w, j, a).storageRoot && acct.codeHash == Acct(w, j, a).codeHash
    ensures BoundaryOk(w, h, j + [Change(AcctKey(a), VAcct(acct))])
  {
    var c := Change(AcctKey(a), VAcct(acct));
    LogOkStep(j, c);
    forall x: Address ensures AccountOk(w, h, j + [c], x) {
      assert AccountOk(w, h, j, x);
      LastOfOne(j, c, AcctKey(x));
      LastOfOne(j, c, BarrierKey(x));
      LastOfOne(j, c, CodeKey(x));
    }
  }

  lemma StorageKeeps(w: World, h: Keccak, j: Log, a: Address, k: Bytes, r: Raw)
    requires BoundaryOk(w, h, j)
    ensures BoundaryOk(w, h, j + [Change(StorageKey(a, Barrier(j, a), k), VRaw(r))])
  {
    var c := Change(StorageKey(a, Barrier(j, a), k), VRaw(r));
    LogOkStep(j, c);
    forall x: Address ensures AccountOk(w, h, j + [c], x) {
      assert AccountOk(w, h, j, x);
      LastOfOne(j, c, AcctKey(x));
      LastOfOne(j, c, BarrierKey(x));
      LastOfOne(j, c, CodeKey(x));
    }
  }

  lemma CodeKeeps(w: World, h: Keccak, j: Log, a: Address, code: Bytes)
    requires BoundaryOk(w, h, j)
    ensures var c1 := Change(CodeKey(a), VCode(code));
            var acct := Acct(w, j, a).(codeHash := CodeHash(h, code));
            BoundaryOk(w, h, j + [c1] + [Change(AcctKey(a), VAcct(acct))])
  {
    var c1 := Change(CodeKey(a), VCode(code));
    var c2 := Change(AcctKey(a), VAcct(Acct(w, j, a).(codeHash := CodeHash(h, code))));
    LogOkStep(j, c1);
    LogOkStep(j + [c1], c2);
    forall k: Key ensures Last(j + [c1] + [c2], k) == if k == c2.key then Some(c2.value)
                                                      else if k == c1.key then Some(c1.value) else Last(j, k) {
      LastOfOne(j, c1, k);
      LastOfOne(j + [c1], c2, k);
    }
    forall x: Address ensures AccountOk(w, h, j + [c1] + [c2], x) {
      assert AccountOk(w, h, j, x);
    }
  }

  /** The last entry of a key in the journal after Delete. */
  ghost function AfterDelete(j: Log, a: Address, k: Key): Option<Val> {
    if k == BarrierKey(a) then Some(VBarrier(Barrier(j, a) + 1))
    else if k == AcctKey(a) then Some(VAcct(EMPTY_ACCOUNT))
    else if k == CodeKey(a) then Some(VCode([]))
    else Last(j, k)
  }

  lemma DeletedLast(j: Log, a: Address, k: Key)
    ensures Last(Deleted(j, a), k) == AfterDelete(j, a, k)
  {
    hide Last;
    var c1, c2 := Change(CodeKey(a), VCode([])), Change(AcctKey(a), VAcct(EMPTY_ACCOUNT));
    var j2 := j + [c1] + [c2];
    LastOfOne(j, c1, BarrierKey(a));
    LastOfOne(j + [c1], c2, BarrierKey(a));
    LastOfOne(j, c1, k);
    LastOfOne(j + [c1], c2, k);
    LastOfOne(j2, Change(BarrierKey(a), VBarrier(Barrier(j2, a) + 1)), k);
  }

  lemma DeletedLogOk(j: Log, a: Address)
    requires LogOk(j)
    ensures LogOk(Deleted(j, a))
  {
    hide LogOk, Last;
    var c1, c2 := Change(CodeKey(a), VCode([])), Change(AcctKey(a), VAcct(EMPTY_ACCOUNT));
    LogOkStep(j, c1);
    LogOkStep(j + [c1], c2);
    LogOkStep(j + [c1] + [c2], Change(BarrierKey(a), VBarrier(Barrier(j + [c1] + [c2], a) + 1)));
  }

  lemma DeleteKeeps(w: World, h: Keccak, j: Log, a: Address)
    requires BoundaryOk(w, h, j)
    ensures BoundaryOk(w, h, Deleted(j, a))
  {
    hide LogOk, Last, Deleted;
    DeletedLogOk(j, a);
    forall x: Address ensures AccountOk(w, h, Deleted(j, a), x) {
      assert AccountOk(w, h, j, x);
      DeletedLast(j, a, AcctKey(x));
      DeletedLast(j, a, BarrierKey(x));
      DeletedLast(j, a, CodeKey(x));
    }
  }

  /** The journal after Delete. */
  function Deleted(j: Log, a: Address): Log {
    var j2 := j + [Change(CodeKey(a), VCode([]))] + [Change(AcctKey(a), VAcct(EMPTY_ACCOUNT))];
    j2 + [Change(BarrierKey(a), VBarrier(Barrier(j2, a) + 1))]
  }

  /** Behind a barrier that was never raised nothing was written. */
  lemma {:induction false} NothingBeyond(j: Log, a: Address, b: nat, k: Bytes)
    requires LogOk(j) && b > Barrier(j, a)
    ensures Last(j, StorageKey(a, b, k)).None?
  {
    if j != [] {
      var j0, c := j[..|j| - 1], j[|j| - 1];
      assert j == j0 + [c];
      LogOkPrefix(j0, c);
      LastOfOne(j0, c, BarrierKey(a));
      NothingBeyond(j0, a, b, k);
    }
  }

  lemma LogOkPrefix(j: Log, c: Change<Key, Val>)
    requires LogOk(j + [c])
    ensures LogOk(j) && Typed(c)
    ensures c.key.StorageKey? ==> c.key.barrier == Barrier(j, c.key.addr)
    ensures c.key.BarrierKey? ==> c.value.n == Barrier(j, c.key.addr) + 1
  {
    var j' := j + [c];
    assert j'[..|j|] == j && j'[|j|] == c;
    forall i | 0 <= i < |j|
      ensures && Typed(j[i])
              && (j[i].key.StorageKey? ==> j[i].key.barrier == Barrier(j[..i], j[i].key.addr))
              && (j[i].key.BarrierKey? ==> j[i].value.n == Barrier(j[..i], j[i].key.addr) + 1)
    {
      assert j'[..i] == j[..i] && j'[i] == j[i];
    }
  }

  /** A storage write changes the read of its own key and no other. */
  lemma WriteReads(w: World, j: Log, a: Address, k: Bytes, r: Raw, a': Address, k': Bytes)
    ensures var j' := j + [Change(StorageKey(a, Barrier(j, a), k), VRaw(r))];
            && RawOf(w, j', a', k') == (if a' == a && k' == k then r else RawOf(w, j, a', k'))
            && Acct(w, j', a') == Acct(w, j, a') && CodeOf(w, j', a') == CodeOf(w, j, a')
  {
    var c := Change(StorageKey(a, Barrier(j, a), k), VRaw(r));
    LastOfOne(j, c, BarrierKey(a'));
    LastOfOne(j, c, AcctKey(a'));
    LastOfOne(j, c, CodeKey(a'));
    LastOfOne(j, c, StorageKey(a', Barrier(j, a'), k'));
  }

  /** An account write changes the read of its own account and no other. */
  lemma SetterReads(w: World, j: Log, a: Address, acct: Account, x: Address, k: Bytes)
    ensures var j' := j + [Change(AcctKey(a), VAcct(acct))];
            && Acct(w, j', x) == (if x == a then acct else Acct(w, j, x))
            && CodeOf(w, j', x) == CodeOf(w, j, x) && RawOf(w, j', x, k) == RawOf(w, j, x, k)
  {
    var c := Change(AcctKey(a), VAcct(acct));
    LastOfOne(j, c, AcctKey(x));
    LastOfOne(j, c, BarrierKey(x));
    LastOfOne(j, c, CodeKey(x));
    LastOfOne(j, c, StorageKey(x, Barrier(j, x), k));
  }

  /** After Delete the account, its code and all its storage read as empty; nobody else notices. */
  lemma DeletedReads(w: World, j: Log, a: Address, a': Address, k: Bytes)
    requires LogOk(j)
    ensures var j' := Deleted(j, a);
            if a' == a then Acct(w, j', a) == EMPTY_ACCOUNT && CodeOf(w, j', a) == Got([]) && RawOf(w, j', a, k) == []
            else && Acct(w, j', a') == Acct(w, j, a') && CodeOf(w, j', a') == CodeOf(w, j, a')
                 && RawOf(w, j', a', k) == RawOf(w, j, a', k)
  {
    forall x: Key ensures Last(Deleted(j, a), x) == AfterDelete(j, a, x) { DeletedLast(j, a, x); }
    NothingBeyond(j, a, Barrier(j, a) + 1, k);
    hide Last, LogOk, Deleted;
  }
}
