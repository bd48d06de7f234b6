/**
 The state as the virtual machine sees it (runtime/statedb/statedb.go): writes through the setters of the
 state, and snapshots kept in a stacked map of their own that remembers the state's revisions.
 */
module StateDb {
  import opened ByteStrings
  import opened StackedMap
  import opened StateJournal
  import opened State

  // ---- writes ----

  datatype Write =
    | WriteBalance(addr: Address, balance: int)
    | WriteEnergy(addr: Address, energy: int, blockTime: nat)
    | WriteMaster(addr: Address, master: Bytes)
    | WriteStorage(addr: Address, key: Bytes, raw: Raw)
    | WriteCode(addr: Address, code: Bytes)
    | Suicide(addr: Address)

  /** The journal after a write. */
  function Written(w: World, h: Keccak, j: Log, x: Write): Log {
    match x
    case WriteBalance(a, balance) => j + [Change(AcctKey(a), VAcct(Acct(w, j, a).(balance := balance)))]
    case WriteEnergy(a, energy, time) =>
      j + [Change(AcctKey(a), VAcct(Acct(w, j, a).(energy := energy, blockTime := time)))]
    case WriteMaster(a, master) => j + [Change(AcctKey(a), VAcct(Acct(w, j, a).(master := MasterOf(master))))]
    case WriteStorage(a, k, raw) => j + [Change(StorageKey(a, Barrier(j, a), k), VRaw(raw))]
    case WriteCode(a, code) =>
      j + [Change(CodeKey(a), VCode(code))] + [Change(AcctKey(a), VAcct(Acct(w, j, a).(codeHash := CodeHash(h, code))))]
    case Suicide(a) => Deleted(j, a)
  }

  function WrittenAll(w: World, h: Keccak, j: Log, xs: seq<Write>): Log {
    if xs == [] then j else Written(w, h, WrittenAll(w, h, j, xs[..|xs| - 1]), xs[|xs| - 1])
  }

  method Perform(st: State, x: Write)
    requires st.Valid()
    modifies st.sm
    ensures st.Valid() && |st.sm.mapStack| == |old(st.sm.mapStack)| && st.Below() == old(st.Below())
    ensures Above(old(st.sm.mapStack), st.sm.mapStack) && st.J() == Written(st.w, st.h, old(st.J()), x)
  {
    hide Above, StackOk, BoundaryOk, Journal;
    match x {
      case WriteBalance(a, balance) => st.SetBalance(a, balance);
      case WriteEnergy(a, energy, time) => st.SetEnergy(a, energy, time);
      case WriteMaster(a, master) => st.SetMaster(a, master);
      case WriteStorage(a, k, raw) => st.SetRawStorage(a, k, raw);
      case WriteCode(a, code) => st.SetCode(a, code);
      case Suicide(a) => st.Delete(a);
    }
  }

  method PerformAll(st: State, xs: seq<Write>)
    requires st.Valid()
    modifies st.sm
    ensures st.Valid() && Above(old(st.sm.mapStack), st.sm.mapStack)
    ensures st.J() == WrittenAll(st.w, st.h, old(st.J()), xs)
  {
    hide Above, StackOk, BoundaryOk, Journal, Written;
    AboveItself(st.sm.mapStack);
    for i := 0 to |xs|
      invariant st.Valid() && Above(old(st.sm.mapStack), st.sm.mapStack)
      invariant st.J() == WrittenAll(st.w, st.h, old(st.J()), xs[..i])
    {
      ghost var s := st.sm.mapStack;
      assert xs[..i + 1][..i] == xs[..i];
      Perform(st, xs[i]);
      AboveTwice(old(st.sm.mapStack), s, st.sm.mapStack);
    }
    assert xs[..|xs|] == xs;
  }

  // ---- snapshots ----

  /** What the machine may do to the state. */
  datatype VmOp = Put(x: Write) | Snapshot | RevertToSnapshot(rev: nat)

  /** The journal, and the journals that the open snapshots remember. */
  datatype Vm = Vm(j: Log, saved: seq<Log>)

  /** A machine goes back only to snapshots that are open; going back closes the snapshot and all later ones. */
  predicate Legal(vm: Vm, op: VmOp) { op.RevertToSnapshot? ==> 1 <= op.rev <= |vm.saved| }

  function VmStep(w: World, h: Keccak, vm: Vm, op: VmOp): Vm
    requires Legal(vm, op)
  {
    match op
    case Put(x) => vm.(j := Written(w, h, vm.j, x))
    case Snapshot => Vm(vm.j, vm.saved + [vm.j])
    case RevertToSnapshot(rev) => Vm(vm.saved[rev - 1], vm.saved[..rev - 1])
  }

  predicate LegalRun(w: World, h: Keccak, vm: Vm, ops: seq<VmOp>)
    decreases |ops|
  {
    ops != [] ==> Legal(vm, ops[0]) && LegalRun(w, h, VmStep(w, h, vm, ops[0]), ops[1..])
  }

  function VmRun(w: World, h: Keccak, vm: Vm, ops: seq<VmOp>): Vm
    requires LegalRun(w, h, vm, ops)
    decreases |ops|
  {
    if ops == [] then vm else VmRun(w, h, VmStep(w, h, vm, ops[0]), ops[1..])
  }

  /** The journal a machine leaves behind. */
  function Acted(w: World, h: Keccak, j: Log, ops: seq<VmOp>): Log
    requires LegalRun(w, h, Vm(j, []), ops)
  {
    VmRun(w, h, Vm(j, []), ops).j
  }

  lemma ActedOne(w: World, h: Keccak, j: Log, x: Write)
    ensures LegalRun(w, h, Vm(j, []), [Put(x)]) && Acted(w, h, j, [Put(x)]) == Written(w, h, j, x)
  {
    var ops := [Put(x)];
    assert ops[1..] == [];
    assert LegalRun(w, h, VmStep(w, h, Vm(j, []), Put(x)), ops[1..]);
    assert VmRun(w, h, Vm(j, []), ops) == VmRun(w, h, VmStep(w, h, Vm(j, []), Put(x)), []);
  }

  /** No machine takes back what was written before it started. */
  lemma {:induction false} OnlyAdds(w: World, h: Keccak, j: Log, vm: Vm, ops: seq<VmOp>)
    requires LegalRun(w, h, vm, ops) && j <= vm.j && forall i :: 0 <= i < |vm.saved| ==> j <= vm.saved[i]
    ensures j <= VmRun(w, h, vm, ops).j
    decreases |ops|
  {
    if ops != [] { OnlyAdds(w, h, j, VmStep(w, h, vm, ops[0]), ops[1..]); }
  }

  datatype RepoKey = StateRev

  /** The levels of the snapshot map hold the revisions. */
  ghost predicate RepoHolds(repo: Stack<RepoKey, nat>, revs: seq<nat>) {
    && |repo| == |revs| + 1
    && forall i :: 0 <= i < |revs| ==> StateRev in repo[i].kvs && repo[i].kvs[StateRev] == revs[i]
  }

  /** The revisions are those of the saved journals, ascending, below the top level and not below the start. */
  ghost predicate RevsOk(base: Stack<Key, Val>, stack: Stack<Key, Val>, revs: seq<nat>, saved: seq<Log>) {
    && base != [] && Above(base, stack) && |saved| == |revs|
    && (forall i :: 0 <= i < |revs| ==> |base| <= revs[i] < |stack| && Journal(stack[..revs[i]]) == saved[i])
    && (forall i, k :: 0 <= i < k < |revs| ==> revs[i] < revs[k])
  }

  class StateDb {
    const st: State
    const repo: StackedMap<RepoKey, nat>
    ghost const base: Stack<Key, Val>
    ghost var revs: seq<nat>
    ghost var saved: seq<Log>

    ghost predicate Valid()
      reads this, st.sm, repo
    {
      && st.Valid() && repo.Valid() && repo as object != st.sm as object
      && RepoHolds(repo.mapStack, revs) && RevsOk(base, st.sm.mapStack, revs, saved)
    }

    ghost function Machine(): Vm
      reads this, st.sm
    {
      Vm(st.J(), saved)
    }

    constructor (st: State)
      requires st.Valid()
      ensures Valid() && fresh(repo) && this.st == st && base == st.sm.mapStack && Machine() == Vm(st.J(), [])
    {
      this.st, revs, saved, base := st, [], [], st.sm.mapStack;
      repo := new StackedMap<RepoKey, nat>(_ => Failed);
      new;
      AboveItself(st.sm.mapStack);
    }

    method Put(x: Write)
      requires Valid()
      modifies this, st.sm, repo
      ensures Valid() && Machine() == VmStep(st.w, st.h, old(Machine()), VmOp.Put(x))
    {
      hide RevsOk, RepoHolds, Above, BoundaryOk, Journal, LevelsOk, IndexOk, Written;
      ghost var stack := st.sm.mapStack;
      Perform(st, x);
      WriteRevs(base, stack, st.sm.mapStack, revs, saved);
    }

    method Snapshot() returns (rev: nat)
      requires Valid()
      modifies this, st.sm, repo
      ensures Valid() && Machine() == VmStep(st.w, st.h, old(Machine()), VmOp.Snapshot)
      ensures rev == old(|saved|) + 1 && Legal(Machine(), VmOp.RevertToSnapshot(rev))
    {
      hide RevsOk, RepoHolds, Above, StackOk, Journal, LevelsOk, IndexOk;
      SnapshotRevs(base, st.sm.mapStack, revs, saved);
      SnapshotRepo(repo.mapStack, revs, |st.sm.mapStack|);
      var srev := st.NewCheckpoint();
      repo.Put(StateRev, srev);
      rev := repo.Push();
      revs, saved := revs + [srev], saved + [st.J()];
    }

    /** The state is back where it was when the snapshot was made. */
    method RevertToSnapshot(rev: nat)
      requires Valid() && Legal(Machine(), VmOp.RevertToSnapshot(rev))
      modifies this, st.sm, repo
      ensures Valid() && Machine() == VmStep(st.w, st.h, old(Machine()), VmOp.RevertToSnapshot(rev))
    {
      hide RevsOk, RepoHolds, Above, StackOk, Journal, LevelsOk, IndexOk, Read;
      RevertRevs(base, st.sm.mapStack, revs, saved, rev);
      RevertRepo(repo.mapStack, repo.src, revs, rev);
      repo.PopDownTo(rev);
      var srev := repo.Get(StateRev);
      st.RevertTo(srev.value);
      revs, saved := revs[..rev - 1], saved[..rev - 1];
    }

    /** The state under any machine is what its steps on the journal say, and the start is never dug into. */
    method Run(ops: seq<VmOp>)
      requires Valid() && LegalRun(st.w, st.h, Machine(), ops)
      modifies this, st.sm, repo
      ensures Valid() && Machine() == VmRun(st.w, st.h, old(Machine()), ops)
    {
      hide Valid, Machine, VmStep, Legal;
      for i := 0 to |ops|
        invariant Valid() && LegalRun(st.w, st.h, Machine(), ops[i..])
        invariant VmRun(st.w, st.h, Machine(), ops[i..]) == VmRun(st.w, st.h, old(Machine()), ops)
      {
        assert ops[i..][1..] == ops[i + 1..];
        Step(ops[i]);
      }
    }

    method Step(op: VmOp)
      requires Valid() && Legal(Machine(), op)
      modifies this, st.sm, repo
      ensures Valid() && Machine() == VmStep(st.w, st.h, old(Machine()), op)
    {
      hide Valid, Machine;
      match op {
        case Put(x) => Put(x);
        case Snapshot => var _ := Snapshot();
        case RevertToSnapshot(rev) => RevertToSnapshot(rev);
      }
    }
  }

  /** A machine at work on the state (PrepareClause): its journal is the machine's, and nothing below is touched. */
  method Act(st: State, ops: seq<VmOp>)
    requires st.Valid() && LegalRun(st.w, st.h, Vm(st.J(), []), ops)
    modifies st.sm
    ensures st.Valid() && Above(old(st.sm.mapStack), st.sm.mapStack) && st.J() == Acted(st.w, st.h, old(st.J()), ops)
  {
    hide Above, StackOk, Journal, LevelsOk, IndexOk, LegalRun, VmRun;
    var db := new StateDb(st);
    db.Run(ops);
  }

  lemma WriteRevs(base: Stack<Key, Val>, stack: Stack<Key, Val>, stack': Stack<Key, Val>, revs: seq<nat>,
                  saved: seq<Log>)
    requires RevsOk(base, stack, revs, saved) && Above(stack, stack') && |stack'| == |stack| > 0
    requires stack'[..|stack| - 1] == stack[..|stack| - 1]
    ensures RevsOk(base, stack', revs, saved)
  {
    hide Above, Journal;
    AboveTwice(base, stack, stack');
    forall i | 0 <= i < |revs| ensures Journal(stack'[..revs[i]]) == saved[i] {
      assert stack'[..revs[i]] == stack'[..|stack| - 1][..revs[i]] == stack[..revs[i]];
    }
  }

  lemma SnapshotRevs(base: Stack<Key, Val>, stack: Stack<Key, Val>, revs: seq<nat>, saved: seq<Log>)
    requires RevsOk(base, stack, revs, saved)
    ensures |saved| == |revs| && RevsOk(base, PushTo(stack), revs + [|stack|], saved + [Journal(stack)])
  {
    hide Above, Journal;
    var s', r', j' := PushTo(stack), revs + [|stack|], saved + [Journal(stack)];
    AbovePush(stack);
    AboveTwice(base, stack, s');
    AboveItself(base);
    AboveTwice(base, base, stack);
    forall i | 0 <= i < |r'| ensures |base| <= r'[i] < |s'| && Journal(s'[..r'[i]]) == j'[i] {
      assert s'[..r'[i]] == if i < |revs| then stack[..revs[i]] else stack;
    }
  }

  lemma SnapshotRepo(repo: Stack<RepoKey, nat>, revs: seq<nat>, srev: nat)
    requires RepoHolds(repo, revs)
    ensures |repo| == |revs| + 1 && RepoHolds(PushTo(PutTop(repo, StateRev, srev)), revs + [srev])
  {
  }

  lemma RevertRevs(base: Stack<Key, Val>, stack: Stack<Key, Val>, revs: seq<nat>, saved: seq<Log>, rev: nat)
    requires RevsOk(base, stack, revs, saved) && 1 <= rev <= |saved|
    ensures |saved| == |revs| && RevsOk(base, PopTo(stack, revs[rev - 1]), revs[..rev - 1], saved[..rev - 1])
    ensures Journal(PopTo(stack, revs[rev - 1])) == saved[rev - 1] && revs[rev - 1] >= 1
  {
    hide Above, Journal;
    var r := revs[rev - 1];
    AbovePopTo(base, stack, r);
    var s' := PopTo(stack, r);
    assert s' == stack[..r];
    forall i | 0 <= i < rev - 1 ensures s'[..revs[i]] == stack[..revs[i]] {}
  }

  lemma RevertRepo(repo: Stack<RepoKey, nat>, src: RepoKey -> Got<nat>, revs: seq<nat>, rev: nat)
    requires RepoHolds(repo, revs) && 1 <= rev <= |revs|
    ensures RepoHolds(PopTo(repo, rev), revs[..rev - 1]) && Read(PopTo(repo, rev), src, StateRev) == Got(revs[rev - 1])
  {
    assert PopTo(repo, rev) == repo[..rev];
  }
}
