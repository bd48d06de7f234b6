/**
 Packing a block (packer/packer.go, packer/flow.go): scheduling it, adopting transactions one by one on the
 state, and building its header.
 */
module Packer {
  import opened ByteStrings
  import opened GasLimit
  import opened Scheduler
  import opened Runtime
  import opened Fees
  import Ledger
  import StackedMap
  import StateDb
  import StateJournal
  import State

  type TxId = Bytes
  type Features = bv32
  type Log = StateJournal.Log

  datatype Transaction = Transaction(id: TxId, body: Tx, chainTag: Byte, blockRef: nat, expiration: nat,
                                     features: Features, unusedReserved: bool, dependsOn: Option<TxId>)

  datatype Context = Context(beneficiary: Bytes, signer: Bytes, number: nat, time: nat, gasLimit: Uint64,
                             totalScore: nat)

  /** A header; transactions and receipts stand for their roots. */
  datatype Header = Header(number: nat, timestamp: nat, gasLimit: Uint64, gasUsed: Uint64, totalScore: nat,
                           beneficiary: Bytes, signer: Bytes, features: Features, txs: seq<Transaction>,
                           receipts: seq<Receipt>, stateRoot: Bytes, com: bool)

  datatype Forks = Forks(vip191: nat, blocklist: nat, finality: nat)

  /** What a node finds around it: the chain and the state of the parent, the runtime, the authority contract. */
  datatype Env = Env(
    forks: Forks,
    chainTag: Byte,
    onChain: (TxId, nat) -> bool,                        // HasTransaction
    meta: TxId -> Option<bool>,                          // GetTransactionMeta: whether reverted
    blocked: Bytes -> bool,
    world: StateJournal.World,                           // the state of the parent
    keccak: StateJournal.Keccak,
    block: Context -> Block,                             // runtime.New
    update: (Log, Proposer) -> seq<StateDb.Write>,       // authority.Update
    stateRoot: Log -> Bytes)                             // Stage().Hash()

  ghost predicate EnvOk(env: Env) { forall ctx: Context :: BlockOk(env, ctx, env.block(ctx)) }

  ghost predicate BlockOk(env: Env, ctx: Context, b: Block) {
    && MachineOk(b) && b.books.w == env.world && b.books.h == env.keccak
    && b.books.time == ctx.time && b.beneficiary == ctx.beneficiary
  }

  lemma OneBlockOk(env: Env, ctx: Context)
    requires EnvOk(env)
    ensures BlockOk(env, ctx, env.block(ctx))
  {
  }

  function Add64(a: Uint64, b: Uint64): Uint64 { ((a as int) + b) % TWO64 }

  predicate Expired(tx: Transaction, number: nat) { number > tx.blockRef + tx.expiration }

  predicate FeaturesOk(tx: Transaction, supported: Features) {
    tx.features & supported == tx.features && !tx.unusedReserved
  }

  // ---- running transactions ----

  /** What a list of transactions has done. */
  datatype Done = Done(log: Log, processed: map<TxId, bool>, gasUsed: Uint64, receipts: seq<Receipt>)

  predicate Known(env: Env, processed: map<TxId, bool>, tx: Transaction) {
    tx.id in processed || env.onChain(tx.id, tx.blockRef)
  }

  datatype Dep = NoDep | DepMissing | DepReverted | DepFine

  function FindDep(env: Env, processed: map<TxId, bool>, tx: Transaction): Dep {
    match tx.dependsOn
    case None => NoDep
    case Some(id) =>
      if id in processed then (if processed[id] then DepReverted else DepFine)
      else match env.meta(id) case None => DepMissing case Some(reverted) => if reverted then DepReverted else DepFine
  }

  ghost function Outcomes(env: Env, ctx: Context, log: Log, tx: Transaction): Outcome
    requires EnvOk(env)
  {
    OneBlockOk(env, ctx);
    Execute(env.block(ctx), log, tx.body)
  }

  ghost function Run(env: Env, ctx: Context, d: Done, tx: Transaction): Option<Done>
    requires EnvOk(env)
  {
    if Known(env, d.processed, tx) || FindDep(env, d.processed, tx) in {DepMissing, DepReverted} then None
    else
      var o := Outcomes(env, ctx, d.log, tx);
      match o.receipt
      case None => None
      case Some(r) => Some(Done(o.log, d.processed[tx.id := r.reverted], Add64(d.gasUsed, r.gasUsed), d.receipts + [r]))
  }

  ghost function RunAll(env: Env, ctx: Context, start: Log, txs: seq<Transaction>): Option<Done>
    requires EnvOk(env)
  {
    if txs == [] then Some(Done(start, map[], 0, []))
    else
      match RunAll(env, ctx, start, txs[..|txs| - 1])
      case None => None
      case Some(d) => Run(env, ctx, d, txs[|txs| - 1])
  }

  lemma RunOneMore(env: Env, ctx: Context, start: Log, txs: seq<Transaction>, tx: Transaction)
    requires EnvOk(env)
    ensures RunAll(env, ctx, start, txs + [tx]) ==
            match RunAll(env, ctx, start, txs) case None => None case Some(d) => Run(env, ctx, d, tx)
  {
    assert (txs + [tx])[..|txs|] == txs;
  }

  /** A run that fails does not recover. */
  lemma {:induction false} RunFails(env: Env, ctx: Context, start: Log, txs: seq<Transaction>, n: nat)
    requires EnvOk(env) && n <= |txs| && RunAll(env, ctx, start, txs[..n]).None?
    ensures RunAll(env, ctx, start, txs).None?
    decreases |txs|
  {
    hide EnvOk, Run;
    if n == |txs| {
      assert txs[..n] == txs;
    } else {
      assert txs[..|txs| - 1][..n] == txs[..n];
      RunFails(env, ctx, start, txs[..|txs| - 1], n);
    }
  }

  /** No transaction uses more gas than it brings. */
  lemma GasBounded(env: Env, ctx: Context, log: Log, tx: Transaction)
    requires EnvOk(env) && Outcomes(env, ctx, log, tx).receipt.Some?
    ensures Outcomes(env, ctx, log, tx).receipt.value.gasUsed <= tx.body.gas
  {
    OneBlockOk(env, ctx);
    hide EnvOk, MachineOk, Execute, Executed, Cost, Charged, Returned, Reward;
    var d, run, r, end := WithReceipt(env.block(ctx), log, tx.body);
    ReceiptOf(env.block(ctx), log, tx.body, d, run, r, end);
    ReceiptIs(env.block(ctx), log, tx.body, d, run, r, end);
  }

  lemma ReceiptOf(b: Block, j: Log, tx: Tx, d: Deal, run: Ran, r: Receipt, end: Log)
    requires MachineOk(b) && Executed(b, j, tx, d, run, r, end)
    ensures Execute(b, j, tx).receipt == Some(r)
  {
  }

  ghost function Applied(env: Env, j: Log, updates: seq<Proposer>): Log {
    if updates == [] then j
    else
      var before := Applied(env, j, updates[..|updates| - 1]);
      StateDb.WrittenAll(env.world, env.keccak, before, env.update(before, updates[|updates| - 1]))
  }

  /** The state belongs to the node's parent block. */
  ghost predicate OfParent(st: State.State, env: Env)
    reads st.sm
  {
    st.Valid() && st.w == env.world && st.h == env.keccak
  }

  method ApplyUpdates(env: Env, st: State.State, updates: seq<Proposer>)
    requires OfParent(st, env)
    modifies st.sm
    ensures OfParent(st, env) && st.J() == Applied(env, old(st.J()), updates)
  {
    hide StateDb.WrittenAll, State.StackOk, StackedMap.Above, StackedMap.Journal;
    for i := 0 to |updates|
      invariant OfParent(st, env) && st.J() == Applied(env, old(st.J()), updates[..i])
    {
      assert updates[..i + 1][..i] == updates[..i];
      StateDb.PerformAll(st, env.update(st.J(), updates[i]));
    }
    assert updates[..|updates|] == updates;
  }

  // ---- packing ----

  predicate Packable(env: Env, ctx: Context, features: Features, tx: Transaction) {
    && !(ctx.number >= env.forks.blocklist && env.blocked(tx.body.origin))
    && FeaturesOk(tx, features) && tx.chainTag == env.chainTag
    && ctx.number >= tx.blockRef && !Expired(tx, ctx.number)
  }

  /** What it takes to be adopted after others. */
  ghost predicate Adoptable(env: Env, ctx: Context, features: Features, d: Done, tx: Transaction)
    requires EnvOk(env)
  {
    Packable(env, ctx, features, tx) && Add64(d.gasUsed, tx.body.gas) <= ctx.gasLimit && Run(env, ctx, d, tx).Some?
  }

  datatype Packed = Packed(txs: seq<Transaction>, done: Done)

  /** What is packed of a list of candidates: each that is adoptable after the ones before it that were. */
  ghost function AdoptAll(env: Env, ctx: Context, features: Features, start: Log, txs: seq<Transaction>): Packed
    requires EnvOk(env)
  {
    if txs == [] then Packed([], Done(start, map[], 0, []))
    else
      var p, tx := AdoptAll(env, ctx, features, start, txs[..|txs| - 1]), txs[|txs| - 1];
      if Adoptable(env, ctx, features, p.done, tx) then Packed(p.txs + [tx], Run(env, ctx, p.done, tx).value) else p
  }

  datatype Refusal = Adopted | BadTx | NotAdoptableNow | NotAdoptableForever | GasLimitReached | KnownTx

  const MIN_TX_GAS := 5_000 + 16_000   // one clause

  /** Why a transaction is refused: what may change later, what will not, and a block that is full for every one. */
  ghost predicate Refused(env: Env, ctx: Context, features: Features, d: Done, tx: Transaction, r: Refusal) {
    var fits := Add64(d.gasUsed, tx.body.gas) <= ctx.gasLimit;
    var packable, dep := Packable(env, ctx, features, tx), FindDep(env, d.processed, tx);
    && (r == GasLimitReached <==> packable && !fits && Add64(d.gasUsed, 21_000) > ctx.gasLimit)
    && (r == KnownTx <==> packable && fits && Known(env, d.processed, tx))
    && (r == NotAdoptableForever <==> packable && fits && !Known(env, d.processed, tx) && dep == DepReverted)
    && (r == NotAdoptableNow <==>
          || TooEarly(env, ctx, features, tx)
          || (packable && !fits && Add64(d.gasUsed, 21_000) <= ctx.gasLimit)
          || (packable && fits && !Known(env, d.processed, tx) && dep == DepMissing))
  }

  /** Nothing but the block it refers to stands in the way. */
  predicate TooEarly(env: Env, ctx: Context, features: Features, tx: Transaction) {
    && !(ctx.number >= env.forks.blocklist && env.blocked(tx.body.origin))
    && FeaturesOk(tx, features) && tx.chainTag == env.chainTag && ctx.number < tx.blockRef
  }

  class Flow {
    const env: Env
    const ctx: Context
    const features: Features
    const st: State.State
    ghost const start: Log
    var processed: map<TxId, bool>
    var gasUsed: Uint64
    var txs: seq<Transaction>
    var receipts: seq<Receipt>

    ghost function Now(): Done
      reads this, st.sm
    {
      Done(st.J(), processed, gasUsed, receipts)
    }

    ghost predicate Valid()
      reads this, st.sm
    {
      && EnvOk(env) && OfParent(st, env)
      && RunAll(env, ctx, start, txs) == Some(Now())
      && (forall tx :: tx in txs ==> Packable(env, ctx, features, tx))
      && (RoomFor(txs, ctx.gasLimit) ==> gasUsed <= ctx.gasLimit)
    }

    constructor (env: Env, ctx: Context, features: Features, st: State.State)
      requires EnvOk(env) && OfParent(st, env)
      ensures Valid() && txs == [] && this.env == env && this.ctx == ctx && this.features == features
      ensures this.st == st && start == st.J() && Now() == Done(start, map[], 0, [])
    {
      this.env, this.ctx, this.features, this.st, this.start := env, ctx, features, st, st.J();
      processed, gasUsed, txs, receipts := map[], 0, [], [];
    }

    /** A transaction is adopted exactly when it is adoptable; else the state is put back, level by level as it was. */
    method Adopt(tx: Transaction) returns (r: Refusal)
      requires Valid()
      modifies this, st.sm
      ensures Valid() && (r == Adopted <==> old(Adoptable(env, ctx, features, Now(), tx)))
      ensures if r == Adopted then txs == old(txs) + [tx] && Some(Now()) == old(Run(env, ctx, Now(), tx))
              else txs == old(txs) && Now() == old(Now()) && st.sm.mapStack == old(st.sm.mapStack)
      ensures old(Refused(env, ctx, features, Now(), tx, r))
    {
      hide EnvOk, Execute, RoomFor, Packable, TooEarly, RunAll, StackedMap.Above, StackedMap.Journal, State.StackOk;
      NotBoth(env, ctx, features, tx);
      var packable := TestTx(tx);
      if packable != Adopted { return packable; }
      if Add64(gasUsed, tx.body.gas) > ctx.gasLimit {
        if Add64(gasUsed, MIN_TX_GAS) <= ctx.gasLimit { return NotAdoptableNow; }
        return GasLimitReached;
      }
      if Known(env, processed, tx) { return KnownTx; }
      var dep := FindDep(env, processed, tx);
      if dep == DepMissing { return NotAdoptableNow; }
      if dep == DepReverted { return NotAdoptableForever; }
      var result := Try(tx);
      if result.None? { return BadTx; }
      RunOneMore(env, ctx, start, txs, tx);
      GasBounded(env, ctx, old(st.J()), tx);
      RoomForOneMore(txs, tx, ctx.gasLimit, gasUsed, result.value.gasUsed);
      var receipt := result.value;
      processed := processed[tx.id := receipt.reverted];
      gasUsed := Add64(gasUsed, receipt.gasUsed);
      receipts := receipts + [receipt];
      txs := txs + [tx];
      r := Adopted;
    }

    /** The checks that depend on the block only. */
    method TestTx(tx: Transaction) returns (r: Refusal)
      ensures r in {Adopted, BadTx, NotAdoptableNow} && (r == Adopted <==> Packable(env, ctx, features, tx))
      ensures r == NotAdoptableNow <==> TooEarly(env, ctx, features, tx)
    {
      if ctx.number >= env.forks.blocklist && env.blocked(tx.body.origin) { return BadTx; }
      if !FeaturesOk(tx, features) { return BadTx; }
      if tx.chainTag != env.chainTag { return BadTx; }
      if ctx.number < tx.blockRef { return NotAdoptableNow; }
      if Expired(tx, ctx.number) { return BadTx; }
      r := Adopted;
    }

    /** Executes above a checkpoint; an error, whatever it left behind, is undone. */
    method Try(tx: Transaction) returns (r: Option<Receipt>)
      requires EnvOk(env) && OfParent(st, env)
      modifies st.sm
      ensures OfParent(st, env) && r == Outcomes(env, ctx, old(st.J()), tx).receipt
      ensures if r.Some? then st.J() == Outcomes(env, ctx, old(st.J()), tx).log
              else st.sm.mapStack == old(st.sm.mapStack)
    {
      hide EnvOk, MachineOk, Execute, StackedMap.Above, StackedMap.Journal, State.StackOk;
      OneBlockOk(env, ctx);
      var checkpoint := st.NewCheckpoint();
      r := ExecuteTransaction(env.block(ctx), st, tx.body);
      if r.None? {
        StackedMap.CheckpointRestores(old(st.sm.mapStack), st.sm.mapStack);
        st.RevertTo(checkpoint);
      }
    }

    /** The header of the packed block. */
    method Pack(shouldVote: bool) returns (header: Header)
      requires Valid()
      ensures ContextOf(header) == ctx && header.features == features && header.txs == txs
      ensures header.gasUsed == gasUsed && header.receipts == receipts && header.stateRoot == env.stateRoot(st.J())
      ensures header.com == (ctx.number >= env.forks.finality && shouldVote)
    {
      header := Header(ctx.number, ctx.time, ctx.gasLimit, gasUsed, ctx.totalScore, ctx.beneficiary, ctx.signer,
                       features, txs, receipts, env.stateRoot(st.J()), ctx.number >= env.forks.finality && shouldVote);
    }
  }

  function ContextOf(header: Header): Context {
    Context(header.beneficiary, header.signer, header.number, header.timestamp, header.gasLimit, header.totalScore)
  }

  /** The gas of each transaction leaves room beside the block's gas limit in 64 bits. */
  ghost predicate RoomFor(txs: seq<Transaction>, limit: Uint64) {
    forall tx :: tx in txs ==> (tx.body.gas as int) + limit < TWO64
  }

  lemma RoomForOneMore(txs: seq<Transaction>, tx: Transaction, limit: Uint64, gasUsed: Uint64, used: Uint64)
    requires RoomFor(txs, limit) ==> gasUsed <= limit
    requires Add64(gasUsed, tx.body.gas) <= limit && used <= tx.body.gas
    ensures RoomFor(txs + [tx], limit) ==> Add64(gasUsed, used) <= limit
  {
    if RoomFor(txs + [tx], limit) {
      assert tx in txs + [tx];
      assert forall t :: t in txs ==> t in txs + [tx];
    }
  }

  predicate Fits(gasUsed: Uint64, used: Uint64, limit: Uint64) { (gasUsed as int) + used <= limit }

  /** The check of Adopt bounds what the transaction may use exactly when the sum does not wrap around. */
  lemma GasCheckIff(gasUsed: Uint64, gas: Uint64, limit: Uint64)
    requires Add64(gasUsed, gas) <= limit
    ensures (forall used: Uint64 :: used <= gas ==> Fits(gasUsed, used, limit)) <==> (gasUsed as int) + gas < TWO64
  {
    if (gasUsed as int) + gas >= TWO64 {
      assert !Fits(gasUsed, gas, limit);
    }
  }

  /** It can wrap around. */
  lemma GasCheckWraps()
    ensures var gasUsed: Uint64, gas: Uint64, limit: Uint64 := 100_000, TWO64 - 50_000, 10_000_000;
            Add64(gasUsed, gas) <= limit && !Fits(gasUsed, gas, limit)
  {
  }

  lemma NotBoth(env: Env, ctx: Context, features: Features, tx: Transaction)
    ensures !(Packable(env, ctx, features, tx) && TooEarly(env, ctx, features, tx))
  {
  }

  // ---- scheduling ----

  /** The parent of a block as far as header checks need it. */
  datatype Parent = Parent(number: nat, timestamp: nat, gasLimit: Uint64, totalScore: nat)

  /** The proposers and their order for the block after a parent. */
  datatype Poa = Poa(proposers: seq<Proposer>, order: Order)

  function SupportedFeatures(forks: Forks, number: nat): Features { if number >= forks.vip191 then 1 else 0 }

  /** Times and scores leave room in 64 bits for a turn of all proposers. */
  predicate Roomy(parent: Parent, poa: Poa, now: nat) {
    && parent.timestamp + T * (|poa.proposers| + 2) < TWO64 && now + T * (|poa.proposers| + 2) < TWO64
    && parent.totalScore + |poa.proposers| < TWO64
  }

  /** A scheduler for the block after the parent. */
  ghost predicate Made(sched: Scheduler, signer: Bytes, parent: Parent, poa: Poa) {
    MadeFor(sched, poa.order, signer, poa.proposers) && sched.Valid() && sched.parentBlockTime == parent.timestamp
  }

  /** It is the signer's turn, with the score of the schedule, on the parent's state with the schedule's updates. */
  ghost predicate InTurn(env: Env, sched: Scheduler, parent: Parent, ctx: Context, start: Log) {
    && sched.Valid() && sched.IsTheTime(ctx.time)
    && ctx.totalScore == parent.totalScore + sched.Score(ctx.time)
    && start == Applied(env, [], sched.Changes(ctx.time))
  }

  /** What a flow starts with. */
  ghost predicate Scheduled(env: Env, master: Bytes, target: Uint64, parent: Parent, poa: Poa, now: nat,
                            ctx: Context, start: Log) {
    && ctx.signer == master && ctx.number == parent.number + 1 && now <= ctx.time && parent.timestamp < ctx.time
    && parent.totalScore < ctx.totalScore < TWO64 && ctx.gasLimit == PackerLimit(target, parent.gasLimit)
    && exists sched :: Made(sched, master, parent, poa) && InTurn(env, sched, parent, ctx, start)
  }

  method Schedule(env: Env, master: Bytes, beneficiary: Bytes, target: Uint64, parent: Parent, poa: Poa, now: nat)
    returns (r: Option<Flow>)
    requires Roomy(parent, poa, now) && EnvOk(env)
    ensures r.Some? <==> Has(master, poa.proposers)
    ensures r.Some? ==>
              && fresh(r.value) && fresh(r.value.st.sm) && r.value.Valid() && r.value.txs == [] && r.value.env == env
              && r.value.features == SupportedFeatures(env.forks, parent.number + 1)
              && r.value.ctx.beneficiary == beneficiary && r.value.Now() == Done(r.value.start, map[], 0, [])
              && Scheduled(env, master, target, parent, poa, now, r.value.ctx, r.value.start)
  {
    hide EnvOk, MadeFor, IsValid, Has, Applied, PackerLimit, RunAll, RoomFor, State.StackOk;
    var made := NewSchedulerV2(master, poa.proposers, parent.timestamp, poa.order);
    if made.None? { return None; }
    var sched := made.value;
    ShuffledSize(sched, poa.order, master, poa.proposers);
    var time := sched.Schedule(now);
    var updates, score := sched.Updates(time);
    var st := new State.State(env.world, env.keccak);
    ApplyUpdates(env, st, updates);
    var ctx := Context(beneficiary, master, parent.number + 1, time, PackerLimit(target, parent.gasLimit),
                       parent.totalScore + score);
    assert Made(sched, master, parent, poa) && InTurn(env, sched, parent, ctx, st.J());
    var flow := new Flow(env, ctx, SupportedFeatures(env.forks, parent.number + 1), st);
    r := Some(flow);
  }
}
