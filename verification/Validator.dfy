/** Validating a block (consensus/validator.go), and why a packed block passes. */
module Validator {
  import opened ByteStrings
  import opened GasLimit
  import opened Scheduler
  import opened Runtime
  import opened Packer
  import StackedMap
  import State

  datatype Verdict = Accepted(stateRoot: Bytes, receipts: seq<Receipt>) | Rejected(why: Reason)

  datatype Reason =
    | BadFeatures | BehindParent | NotRounded | FutureBlock | BadGasLimit | GasUsedOverLimit | BadTotalScore | EarlyCom
    | BadSigner | Unscheduled | WrongScore | BadTransaction | BrokenRun
    | GasUsedMismatch | ReceiptsMismatch | StateMismatch

  /** validateBlockHeader, without signature and VRF. */
  predicate HeaderOk(env: Env, header: Header, parent: Parent, now: nat) {
    && header.timestamp > parent.timestamp && (header.timestamp - parent.timestamp) % T == 0
    && header.timestamp <= now + T
    && IsValid(header.gasLimit, parent.gasLimit) && header.gasUsed <= header.gasLimit
    && header.totalScore > parent.totalScore
    && !(header.number < env.forks.finality && header.com)
  }

  /** What makes a block acceptable on top of its parent. */
  ghost predicate Acceptable(env: Env, header: Header, parent: Parent, poa: Poa, now: nat)
    requires EnvOk(env)
  {
    && header.features == SupportedFeatures(env.forks, header.number)
    && HeaderOk(env, header, parent, now)
    && (forall tx :: tx in header.txs ==> Packable(env, ContextOf(header), header.features, tx))
    && exists sched :: RunsTo(env, header, parent, poa, sched)
  }

  /** It is the signer's turn, and running the transactions leads to what the header says. */
  ghost predicate RunsTo(env: Env, header: Header, parent: Parent, poa: Poa, sched: Scheduler)
    requires EnvOk(env)
  {
    var start := Applied(env, [], sched.Changes(header.timestamp));
    && Made(sched, header.signer, parent, poa) && InTurn(env, sched, parent, ContextOf(header), start)
    && RunAll(env, ContextOf(header), start, header.txs).Some?
    && HeaderTells(env, header, RunAll(env, ContextOf(header), start, header.txs).value)
  }

  /** The header says what the transactions have done. */
  ghost predicate HeaderTells(env: Env, header: Header, d: Done) {
    d.gasUsed == header.gasUsed && d.receipts == header.receipts && env.stateRoot(d.log) == header.stateRoot
  }

  method ValidateBlockHeader(env: Env, header: Header, parent: Parent, now: nat) returns (why: Option<Reason>)
    ensures why.None? <==> HeaderOk(env, header, parent, now)
  {
    if header.timestamp <= parent.timestamp { return Some(BehindParent); }
    if (header.timestamp - parent.timestamp) % T != 0 { return Some(NotRounded); }
    if header.timestamp > now + T { return Some(FutureBlock); }
    if !IsValid(header.gasLimit, parent.gasLimit) { return Some(BadGasLimit); }
    if header.gasUsed > header.gasLimit { return Some(GasUsedOverLimit); }
    if header.totalScore <= parent.totalScore { return Some(BadTotalScore); }
    if header.number < env.forks.finality && header.com { return Some(EarlyCom); }
    return None;
  }

  method ValidateBlockBody(env: Env, header: Header) returns (ok: bool)
    ensures ok <==> forall tx :: tx in header.txs ==> Packable(env, ContextOf(header), header.features, tx)
  {
    for i := 0 to |header.txs|
      invariant forall tx :: tx in header.txs[..i] ==> Packable(env, ContextOf(header), header.features, tx)
    {
      var tx := header.txs[i];
      assert tx in header.txs;
      if header.number >= env.forks.blocklist && env.blocked(tx.body.origin) { return false; }
      if tx.chainTag != env.chainTag { return false; }
      if header.number < tx.blockRef { return false; }
      if Expired(tx, header.number) { return false; }
      if !FeaturesOk(tx, header.features) { return false; }
    }
    ok := true;
  }

  /** verifyBlock's loop: known transactions, dependencies, execution. */
  method RunTxs(env: Env, ctx: Context, st: State.State, txs: seq<Transaction>)
    returns (ok: bool, processed: map<TxId, bool>, totalGasUsed: Uint64, receipts: seq<Receipt>)
    requires EnvOk(env) && OfParent(st, env)
    modifies st.sm
    ensures OfParent(st, env) && (ok <==> RunAll(env, ctx, old(st.J()), txs).Some?)
    ensures ok ==> RunAll(env, ctx, old(st.J()), txs) == Some(Done(st.J(), processed, totalGasUsed, receipts))
  {
    hide EnvOk, MachineOk, Execute, State.StackOk, StackedMap.Journal, StackedMap.Above;
    processed, totalGasUsed, receipts := map[], 0, [];
    for i := 0 to |txs|
      invariant OfParent(st, env)
      invariant RunAll(env, ctx, old(st.J()), txs[..i]) == Some(Done(st.J(), processed, totalGasUsed, receipts))
    {
      var tx := txs[i];
      assert txs[..i + 1] == txs[..i] + [tx];
      RunOneMore(env, ctx, old(st.J()), txs[..i], tx);
      if RunAll(env, ctx, old(st.J()), txs[..i + 1]).None? { RunFails(env, ctx, old(st.J()), txs, i + 1); }
      if Known(env, processed, tx) { return false, processed, totalGasUsed, receipts; }
      var dep := FindDep(env, processed, tx);
      if dep == DepMissing || dep == DepReverted { return false, processed, totalGasUsed, receipts; }
      OneBlockOk(env, ctx);
      var result := ExecuteTransaction(env.block(ctx), st, tx.body);
      if result.None? { return false, processed, totalGasUsed, receipts; }
      var receipt := result.value;
      totalGasUsed := Add64(totalGasUsed, receipt.gasUsed);
      receipts := receipts + [receipt];
      processed := processed[tx.id := receipt.reverted];
    }
    assert txs[..|txs|] == txs;
    ok := true;
  }

  /** The whole validation: it accepts exactly the acceptable blocks. */
  method Validate(env: Env, header: Header, parent: Parent, poa: Poa, now: nat) returns (r: Verdict)
    requires EnvOk(env) && parent.totalScore + |poa.proposers| < TWO64
    ensures r.Accepted? ==> Acceptable(env, header, parent, poa, now)
    ensures r.Accepted? ==> r.stateRoot == header.stateRoot && r.receipts == header.receipts
    ensures Distinct(poa.proposers) && NoTies(poa.order, poa.proposers) ==>
              (r.Accepted? <==> Acceptable(env, header, parent, poa, now))
  {
    hide EnvOk, HeaderOk, MadeFor, Distinct, NoTies, Packable, RunAll, Applied, State.StackOk, StackedMap.Journal;
    if header.features != SupportedFeatures(env.forks, header.number) { return Rejected(BadFeatures); }
    var why := ValidateBlockHeader(env, header, parent, now);
    if why.Some? { return Rejected(why.value); }
    var made := NewSchedulerV2(header.signer, poa.proposers, parent.timestamp, poa.order);
    if made.None? {
      NotListed(env, header, parent, poa, now);
      return Rejected(BadSigner);
    }
    var sched := made.value;
    assert Made(sched, header.signer, parent, poa);
    OnlyThisScheduler(env, header, parent, poa, now, sched);
    if !sched.IsTheTime(header.timestamp) { return Rejected(Unscheduled); }
    var updates, score := sched.Updates(header.timestamp);
    if parent.totalScore + score != header.totalScore { return Rejected(WrongScore); }
    var st := new State.State(env.world, env.keccak);
    ApplyUpdates(env, st, updates);
    var bodyOk := ValidateBlockBody(env, header);
    if !bodyOk { return Rejected(BadTransaction); }
    var ok, _, gasUsed, receipts := RunTxs(env, ContextOf(header), st, header.txs);
    if !ok { return Rejected(BrokenRun); }
    if gasUsed != header.gasUsed { return Rejected(GasUsedMismatch); }
    if receipts != header.receipts { return Rejected(ReceiptsMismatch); }
    var stateRoot := env.stateRoot(st.J());
    if stateRoot != header.stateRoot { return Rejected(StateMismatch); }
    assert RunsTo(env, header, parent, poa, sched);
    r := Accepted(stateRoot, receipts);
  }

  lemma NotListed(env: Env, header: Header, parent: Parent, poa: Poa, now: nat)
    requires EnvOk(env) && !Has(header.signer, poa.proposers)
    ensures !Acceptable(env, header, parent, poa, now)
  {
    hide EnvOk, RunAll, Applied;
  }

  lemma OnlyThisScheduler(env: Env, header: Header, parent: Parent, poa: Poa, now: nat, sched: Scheduler)
    requires EnvOk(env) && Made(sched, header.signer, parent, poa)
    ensures Distinct(poa.proposers) && NoTies(poa.order, poa.proposers) && Acceptable(env, header, parent, poa, now) ==>
              RunsTo(env, header, parent, poa, sched)
  {
    hide EnvOk, RunAll, Applied, HeaderOk, Packable, HeaderTells;
    if Distinct(poa.proposers) && NoTies(poa.order, poa.proposers) && Acceptable(env, header, parent, poa, now) {
      var other :| RunsTo(env, header, parent, poa, other);
      OneScheduler(sched, other, poa.order, header.signer, poa.proposers);
      assert sched == other;
    }
  }

  // ---- what one node packs, another accepts ----

  /** The header of the block that packs what is adoptable of the candidates, in their order, in the master's turn. */
  ghost predicate PackedBy(env: Env, master: Bytes, beneficiary: Bytes, target: Uint64, parent: Parent, poa: Poa,
                           now: nat, txs: seq<Transaction>, start: Log, header: Header)
    requires EnvOk(env)
  {
    var ctx := ContextOf(header);
    && Scheduled(env, master, target, parent, poa, now, ctx, start) && header.beneficiary == beneficiary
    && header.features == SupportedFeatures(env.forks, parent.number + 1)
    && AdoptAll(env, ctx, header.features, start, txs).txs == header.txs
    && HeaderTells(env, header, AdoptAll(env, ctx, header.features, start, txs).done)
    && RunAll(env, ctx, start, header.txs) == Some(AdoptAll(env, ctx, header.features, start, txs).done)
  }

  /**
   Scheduling, adopting any transactions in any order, packing: every node with the same proposers accepts
   the block exactly when its clock is not more than an interval behind.
   */
  method PackThenValidate(env: Env, master: Bytes, beneficiary: Bytes, target: Uint64, parent: Parent, poa: Poa,
                          now: nat, txs: seq<Transaction>, shouldVote: bool, validatorNow: nat)
    returns (header: Option<Header>, verdict: Verdict, ghost start: Log)
    requires EnvOk(env) && Roomy(parent, poa, now) && parent.gasLimit >= MIN_GAS_LIMIT
    requires Distinct(poa.proposers) && NoTies(poa.order, poa.proposers) && RoomForAll(txs, parent)
    ensures header.Some? <==> Has(master, poa.proposers)
    ensures header.Some? ==>
              && PackedBy(env, master, beneficiary, target, parent, poa, now, txs, start, header.value)
              && (header.value.com <==> parent.number + 1 >= env.forks.finality && shouldVote)
              && (Acceptable(env, header.value, parent, poa, validatorNow)
                <==> header.value.timestamp <= validatorNow + T)
              && (verdict == Accepted(header.value.stateRoot, header.value.receipts) <==>
                  header.value.timestamp <= validatorNow + T)
  {
    hide EnvOk, Distinct, NoTies, Has, RunAll, AdoptAll, Scheduled, Acceptable, Packable, RoomFor, State.StackOk;
    verdict, start := Rejected(BadSigner), [];
    var scheduled := Schedule(env, master, beneficiary, target, parent, poa, now);
    if scheduled.None? { return None, verdict, start; }
    var flow := scheduled.value;
    start := flow.start;
    ScheduledIs(env, master, target, parent, poa, now, flow.ctx, start);
    AdoptTxs(flow, txs);
    var packed := flow.Pack(shouldVote);
    RoomLeft(txs, flow.txs, parent, target);
    PackedIsAcceptable(env, master, target, parent, poa, now, start, flow.processed, flow.st.J(), packed, validatorNow);
    verdict := Validate(env, packed, parent, poa, validatorNow);
    header := Some(packed);
  }

  /** All candidates in their order. */
  method AdoptTxs(flow: Flow, txs: seq<Transaction>)
    requires flow.Valid() && flow.txs == [] && flow.Now() == Done(flow.start, map[], 0, [])
    modifies flow, flow.st.sm
    ensures flow.Valid() && (forall tx :: tx in flow.txs ==> tx in txs)
    ensures AdoptAll(flow.env, flow.ctx, flow.features, flow.start, txs) == Packed(flow.txs, flow.Now())
  {
    hide EnvOk, Run, RunAll, Packable, RoomFor, State.StackOk, StackedMap.Journal, flow.Valid, Adoptable;
    FlowEnv(flow);
    for i := 0 to |txs|
      invariant flow.Valid() && forall tx :: tx in flow.txs ==> tx in txs
      invariant AdoptAll(flow.env, flow.ctx, flow.features, flow.start, txs[..i]) == Packed(flow.txs, flow.Now())
    {
      assert txs[..i + 1][..i] == txs[..i];
      var _ := flow.Adopt(txs[i]);
    }
    assert txs[..|txs|] == txs;
  }

  lemma FlowEnv(flow: Flow)
    requires flow.Valid()
    ensures EnvOk(flow.env)
  {
  }

  /** The gas of each transaction leaves room in 64 bits beside the highest gas limit that may follow the parent's. */
  ghost predicate RoomForAll(txs: seq<Transaction>, parent: Parent) {
    forall tx :: tx in txs ==> (tx.body.gas as int) + parent.gasLimit + MaxDiff(parent.gasLimit) < TWO64
  }

  lemma ScheduledIs(env: Env, master: Bytes, target: Uint64, parent: Parent, poa: Poa, now: nat, ctx: Context,
                    start: Log)
    requires Scheduled(env, master, target, parent, poa, now, ctx, start)
    ensures ctx.number == parent.number + 1 && ctx.gasLimit == PackerLimit(target, parent.gasLimit)
  {
  }

  lemma RoomLeft(txs: seq<Transaction>, adopted: seq<Transaction>, parent: Parent, target: Uint64)
    requires RoomForAll(txs, parent) && (forall tx :: tx in adopted ==> tx in txs) && parent.gasLimit >= MIN_GAS_LIMIT
    ensures RoomFor(adopted, PackerLimit(target, parent.gasLimit))
  {
    PackerLimitValidIff(parent.gasLimit);
  }

  lemma PackedIsAcceptable(env: Env, master: Bytes, target: Uint64, parent: Parent, poa: Poa, now: nat, start: Log,
                           processed: map<TxId, bool>, log: Log, header: Header, validatorNow: nat)
    requires EnvOk(env) && Scheduled(env, master, target, parent, poa, now, ContextOf(header), start)
    requires header.features == SupportedFeatures(env.forks, header.number) && parent.gasLimit >= MIN_GAS_LIMIT
    requires RunAll(env, ContextOf(header), start, header.txs) ==
             Some(Done(log, processed, header.gasUsed, header.receipts))
    requires env.stateRoot(log) == header.stateRoot
    requires forall tx :: tx in header.txs ==> Packable(env, ContextOf(header), header.features, tx)
    requires header.gasUsed <= header.gasLimit && (header.com ==> header.number >= env.forks.finality)
    ensures Acceptable(env, header, parent, poa, validatorNow) <==> header.timestamp <= validatorNow + T
  {
    hide EnvOk, Packable, MadeFor, IsValid, RunAll, Applied, PackerLimit;
    PackerLimitValidIff(parent.gasLimit);
    var sched :| Made(sched, master, parent, poa) && InTurn(env, sched, parent, ContextOf(header), start);
    assert RunsTo(env, header, parent, poa, sched);
  }
}
