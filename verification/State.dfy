/** The revertible world state (state/state.go): reads, setters, deletion, checkpoints. */
module State {
  import opened ByteStrings
  import opened StackedMap
  import opened StateJournal

  /** The invariant holds at every checkpoint a caller may go back to. */
  ghost predicate StackOk(w: World, h: Keccak, s: Stack<Key, Val>) {
    s != [] && forall d :: 1 <= d <= |s| ==> BoundaryOk(w, h, Journal(s[..d]))
  }

  lemma StackOkDeep(w: World, h: Keccak, s: Stack<Key, Val>)
    requires StackOk(w, h, s)
    ensures s != []
  {
  }

  lemma StackOkTop(w: World, h: Keccak, s: Stack<Key, Val>, s': Stack<Key, Val>)
    requires StackOk(w, h, s) && |s'| == |s| && s'[..|s| - 1] == s[..|s| - 1] && BoundaryOk(w, h, Journal(s'))
    ensures StackOk(w, h, s')
  {
    forall d | 1 <= d <= |s'| ensures BoundaryOk(w, h, Journal(s'[..d])) {
      if d < |s| {
        assert s'[..d] == s'[..|s| - 1][..d] == s[..d];
      } else {
        assert s'[..d] == s';
      }
    }
  }

  lemma StackOkPush(w: World, h: Keccak, s: Stack<Key, Val>)
    requires StackOk(w, h, s)
    ensures StackOk(w, h, PushTo(s))
  {
    var s' := PushTo(s);
    assert s[..|s|] == s;
    forall d | 1 <= d <= |s'| ensures BoundaryOk(w, h, Journal(s'[..d])) {
      if d <= |s| {
        assert s'[..d] == s[..d];
      } else {
        assert s'[..d] == s' && s'[..|s|] == s;
        assert Journal(s') == Journal(s) + [] == Journal(s);
      }
    }
  }

  lemma StackOkPop(w: World, h: Keccak, s: Stack<Key, Val>, depth: nat)
    requires StackOk(w, h, s) && depth >= 1
    ensures StackOk(w, h, PopTo(s, depth))
  {
    var s' := PopTo(s, depth);
    forall d | 1 <= d <= |s'| ensures BoundaryOk(w, h, Journal(s'[..d])) {
      assert s'[..d] == s[..d];
    }
  }

  lemma {:induction false} LastTyped(j: Log, k: Key)
    requires LogOk(j)
    ensures match Last(j, k) case None => true case Some(v) => Typed(Change(k, v))
  {
    if j != [] {
      assert Typed(j[|j| - 1]);
      assert forall i :: 0 <= i < |j| - 1 ==> j[..|j| - 1][..i] == j[..i];
      LastTyped(j[..|j| - 1], k);
    }
  }

  class State {
    const w: World
    const h: Keccak
    const sm: StackedMap<Key, Val>

    function J(): Log
      reads sm
    {
      Journal(sm.mapStack)
    }

    /** The levels below the top one. */
    ghost function Below(): Stack<Key, Val>
      requires sm.mapStack != []
      reads sm
    {
      sm.mapStack[..|sm.mapStack| - 1]
    }

    ghost predicate Valid()
      reads sm
    {
      && sm.Valid() && StackOk(w, h, sm.mapStack)
      && forall k: Key :: sm.src(k) == Source(w, k)
    }

    constructor (w: World, h: Keccak)
      ensures Valid() && fresh(sm) && this.w == w && this.h == h && J() == []
    {
      this.w, this.h := w, h;
      sm := new StackedMap<Key, Val>(k => Source(w, k));
      new;
      assert sm.mapStack[..1] == sm.mapStack && sm.mapStack[..0] == [];
      assert Journal(sm.mapStack) == Journal<Key, Val>([]) + [] == [];
      assert BoundaryOk(w, h, []);
    }

    lemma ReadsJournal(k: Key)
      requires Valid()
      ensures Read(sm.mapStack, sm.src, k) ==
              match Last<Key, Val>(J(), k) case Some(v) => Got(v) case None => Source(w, k)
      ensures BoundaryOk(w, h, J())
      ensures match Last<Key, Val>(J(), k) case None => true case Some(v) => Typed(Change(k, v))
    {
      ReadIsLast(sm.mapStack, sm.src, k);
      assert sm.mapStack[..|sm.mapStack|] == sm.mapStack;
      LastTyped(J(), k);
    }

    method GetAccount(addr: Address) returns (a: Account)
      requires Valid()
      ensures a == Acct(w, J(), addr)
    {
      ReadsJournal(AcctKey(addr));
      var v := sm.Get(AcctKey(addr));
      a := v.value.acct;
    }

    method GetStorageBarrier(addr: Address) returns (b: nat)
      requires Valid()
      ensures b == Barrier(J(), addr)
    {
      ReadsJournal(BarrierKey(addr));
      var v := sm.Get(BarrierKey(addr));
      b := v.value.n;
    }

    method GetRawStorage(addr: Address, key: Bytes) returns (r: Raw)
      requires Valid()
      ensures r == RawOf(w, J(), addr, key)
    {
      var b := GetStorageBarrier(addr);
      ReadsJournal(StorageKey(addr, b, key));
      var v := sm.Get(StorageKey(addr, b, key));
      r := v.value.raw;
    }

    method GetCode(addr: Address) returns (r: Got<Bytes>)
      requires Valid()
      ensures r == CodeOf(w, J(), addr)
    {
      ReadsJournal(CodeKey(addr));
      var v := sm.Get(CodeKey(addr));
      match v
      case Got(x) => r := Got(x.code);
      case _ => r := Failed;
    }

    /** One put on the stacked map, as seen from the journal. */
    method Put(k: Key, v: Val)
      requires sm.Valid() && sm.mapStack != []
      modifies sm
      ensures sm.Valid() && |sm.mapStack| == |old(sm.mapStack)| && Below() == old(Below())
      ensures Above(old(sm.mapStack), sm.mapStack)
      ensures J() == old(J()) + [Change(k, v)]
    {
      PutTopOk(sm.mapStack, k, v);
      AbovePut(sm.mapStack, k, v);
      sm.Put(k, v);
    }

    method UpdateAccount(addr: Address, acct: Account)
      requires Valid()
      requires acct.storageRoot == Acct(w, J(), addr).storageRoot && acct.codeHash == Acct(w, J(), addr).codeHash
      modifies sm
      ensures Valid() && |sm.mapStack| == |old(sm.mapStack)| && Below() == old(Below())
      ensures Above(old(sm.mapStack), sm.mapStack)
      ensures J() == old(J()) + [Change(AcctKey(addr), VAcct(acct))]
    {
      ReadsJournal(AcctKey(addr));
      SetterKeeps(w, h, J(), addr, acct);
      Put(AcctKey(addr), VAcct(acct));
      StackOkTop(w, h, old(sm.mapStack), sm.mapStack);
    }

    method SetBalance(addr: Address, balance: int)
      requires Valid()
      modifies sm
      ensures Valid() && |sm.mapStack| == |old(sm.mapStack)| && Below() == old(Below())
      ensures Above(old(sm.mapStack), sm.mapStack)
      ensures J() == old(J()) + [Change(AcctKey(addr), VAcct(old(Acct(w, J(), addr)).(balance := balance)))]
    {
      var cpy := GetAccount(addr);
      UpdateAccount(addr, cpy.(balance := balance));
    }

    method SetEnergy(addr: Address, energy: int, blockTime: nat)
      requires Valid()
      modifies sm
      ensures Valid() && |sm.mapStack| == |old(sm.mapStack)| && Below() == old(Below())
      ensures Above(old(sm.mapStack), sm.mapStack)
      ensures J() == old(J()) +
                [Change(AcctKey(addr), VAcct(old(Acct(w, J(), addr)).(energy := energy, blockTime := blockTime)))]
    {
      var cpy := GetAccount(addr);
      UpdateAccount(addr, cpy.(energy := energy, blockTime := blockTime));
    }

    /** SetMaster: the zero address is stored as no master. */
    method SetMaster(addr: Address, master: Bytes)
      requires Valid()
      modifies sm
      ensures Valid() && |sm.mapStack| == |old(sm.mapStack)| && Below() == old(Below())
      ensures Above(old(sm.mapStack), sm.mapStack)
      ensures J() == old(J()) + [Change(AcctKey(addr), VAcct(old(Acct(w, J(), addr)).(master := MasterOf(master))))]
    {
      var cpy := GetAccount(addr);
      if forall i :: 0 <= i < |master| ==> master[i] == 0 {
        UpdateAccount(addr, cpy.(master := []));
      } else {
        UpdateAccount(addr, cpy.(master := master));
      }
    }

    method SetRawStorage(addr: Address, key: Bytes, raw: Raw)
      requires Valid()
      modifies sm
      ensures Valid() && |sm.mapStack| == |old(sm.mapStack)| && Below() == old(Below())
      ensures Above(old(sm.mapStack), sm.mapStack)
      ensures J() == old(J()) + [Change(StorageKey(addr, Barrier(old(J()), addr), key), VRaw(raw))]
    {
      var b := GetStorageBarrier(addr);
      ReadsJournal(AcctKey(addr));
      StorageKeeps(w, h, J(), addr, key, raw);
      Put(StorageKey(addr, b, key), VRaw(raw));
      StackOkTop(w, h, old(sm.mapStack), sm.mapStack);
    }

    method SetCode(addr: Address, code: Bytes)
      requires Valid()
      modifies sm
      ensures Valid() && |sm.mapStack| == |old(sm.mapStack)| && Below() == old(Below())
      ensures Above(old(sm.mapStack), sm.mapStack)
      ensures J() == old(J()) + [Change(CodeKey(addr), VCode(code))] +
                [Change(AcctKey(addr), VAcct(old(Acct(w, J(), addr)).(codeHash := CodeHash(h, code))))]
    {
      hide BoundaryOk, Last, Journal, StackOk, LevelsOk, IndexOk, Above;
      ReadsJournal(AcctKey(addr));
      CodeKeeps(w, h, J(), addr, code);
      StackOkDeep(w, h, sm.mapStack);
      var cpy := GetAccount(addr);
      Put(CodeKey(addr), VCode(code));
      ghost var s1 := sm.mapStack;
      Put(AcctKey(addr), VAcct(cpy.(codeHash := CodeHash(h, code))));
      AboveTwice(old(sm.mapStack), s1, sm.mapStack);
      StackOkTop(w, h, old(sm.mapStack), sm.mapStack);
    }

    /** Delete empties code and account and raises the storage barrier. */
    method Delete(addr: Address)
      requires Valid()
      modifies sm
      ensures Valid() && |sm.mapStack| == |old(sm.mapStack)| && Below() == old(Below())
      ensures Above(old(sm.mapStack), sm.mapStack)
      ensures J() == Deleted(old(J()), addr)
    {
      hide BoundaryOk, Deleted, Last, Barrier, Journal, StackOk, LevelsOk, IndexOk, Above;
      ReadsJournal(AcctKey(addr));
      DeleteKeeps(w, h, J(), addr);
      DeletedBarrier(J(), addr);
      StackOkDeep(w, h, sm.mapStack);
      var b := GetStorageBarrier(addr);
      Put(CodeKey(addr), VCode([]));
      ghost var s1 := sm.mapStack;
      Put(AcctKey(addr), VAcct(EMPTY_ACCOUNT));
      ghost var s2 := sm.mapStack;
      Put(BarrierKey(addr), VBarrier(b + 1));
      AboveTwice(old(sm.mapStack), s1, s2);
      AboveTwice(old(sm.mapStack), s2, sm.mapStack);
      StackOkTop(w, h, old(sm.mapStack), sm.mapStack);
    }

    method NewCheckpoint() returns (revision: nat)
      requires Valid()
      modifies sm
      ensures Valid() && sm.mapStack == PushTo(old(sm.mapStack)) && revision == |old(sm.mapStack)|
      ensures J() == old(J())
    {
      StackOkPush(w, h, sm.mapStack);
      PushReads(sm.mapStack, sm.src, AcctKey([]));
      revision := sm.Push();
    }

    /** Revision 0 leaves no level to write to; a caller has revisions from NewCheckpoint, which start at 1. */
    method RevertTo(revision: nat)
      requires Valid()
      modifies sm
      ensures sm.Valid() && sm.mapStack == PopTo(old(sm.mapStack), revision) && (revision >= 1 ==> Valid())
    {
      if revision >= 1 { StackOkPop(w, h, sm.mapStack, revision); }
      sm.PopDownTo(revision);
    }
  }

  lemma DeletedBarrier(j: Log, a: Address)
    ensures Deleted(j, a) == j + [Change(CodeKey(a), VCode([]))] + [Change(AcctKey(a), VAcct(EMPTY_ACCOUNT))]
                             + [Change(BarrierKey(a), VBarrier(Barrier(j, a) + 1))]
  {
    var c1, c2 := Change(CodeKey(a), VCode([])), Change(AcctKey(a), VAcct(EMPTY_ACCOUNT));
    LastOfOne(j, c1, BarrierKey(a));
    LastOfOne(j + [c1], c2, BarrierKey(a));
  }
}
