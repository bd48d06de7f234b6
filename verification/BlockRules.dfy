/**
 What packer and validator enforce, in plain terms (packer/flow.go, consensus/validator.go): headers in numbers, and
 the transactions of a block one after another.
 */
module BlockRules {
  import opened ByteStrings
  import opened GasLimit
  import opened Scheduler
  import opened Runtime
  import opened Packer
  import opened Validator

  // ---- headers ----

  /** The header checks in numbers. */
  lemma HeaderOkIff(env: Env, header: Header, parent: Parent, now: nat)
    ensures HeaderOk(env, header, parent, now) <==>
            && (exists k: nat :: k >= 1 && header.timestamp == parent.timestamp + 10 * k)
            && header.timestamp <= now + 10 && header.gasLimit >= 1_000_000
            && 1024 * (header.gasLimit as int - parent.gasLimit as int) <= parent.gasLimit
            && 1024 * (parent.gasLimit as int - header.gasLimit as int) <= parent.gasLimit
            && header.gasUsed <= header.gasLimit && parent.totalScore < header.totalScore
            && (header.com ==> header.number >= env.forks.finality)
  {
    IsValidIff(header.gasLimit, parent.gasLimit);
    hide IsValid;
    if header.timestamp > parent.timestamp && (header.timestamp - parent.timestamp) % T == 0 {
      var k := (header.timestamp - parent.timestamp) / T;
      assert header.timestamp == parent.timestamp + 10 * k;
    }
  }

  /** When a block may hold a transaction: its window, its chain, its features, its origin. */
  lemma PackableIff(env: Env, ctx: Context, tx: Transaction)
    ensures Packable(env, ctx, SupportedFeatures(env.forks, ctx.number), tx) <==>
            && tx.blockRef <= ctx.number <= tx.blockRef + tx.expiration && tx.chainTag == env.chainTag
            && (tx.features == 0 || (tx.features == 1 && ctx.number >= env.forks.vip191)) && !tx.unusedReserved
            && (env.blocked(tx.body.origin) ==> ctx.number < env.forks.blocklist)
  {
    FeatureBits(tx.features);
  }

  lemma FeatureBits(f: Features)
    ensures (f & 0 == f <==> f == 0) && (f & 1 == f <==> f == 0 || f == 1)
  {
  }

  // ---- transactions ----

  /** The state before each transaction and after the last, and the receipts. */
  datatype Trace = Trace(logs: seq<Log>, receipts: seq<Receipt>)

  /** What a transaction waits for is not reverted: one earlier in the block, or else one on the chain. */
  ghost predicate DepMet(env: Env, txs: seq<Transaction>, receipts: seq<Receipt>, i: nat)
    requires i < |txs| == |receipts|
  {
    match txs[i].dependsOn
    case None => true
    case Some(id) =>
      || (exists k: nat :: k < i && txs[k].id == id && !receipts[k].reverted)
      || ((forall k: nat :: k < i ==> txs[k].id != id) && env.meta(id) == Some(false))
  }

  /** Each transaction runs on what the ones before have left, is new, and finds what it waits for. */
  ghost predicate Traced(env: Env, ctx: Context, start: Log, txs: seq<Transaction>, t: Trace)
    requires EnvOk(env)
  {
    && |t.receipts| == |txs| && |t.logs| == |txs| + 1 && t.logs[0] == start
    && (forall i :: 0 <= i < |txs| ==>
          Outcomes(env, ctx, t.logs[i], txs[i]) == Outcome(Some(t.receipts[i]), t.logs[i + 1]))
    && (forall i :: 0 <= i < |txs| ==> !env.onChain(txs[i].id, txs[i].blockRef) && DepMet(env, txs, t.receipts, i))
    && (forall i, k :: 0 <= i < k < |txs| ==> txs[i].id != txs[k].id)
  }

  function GasOf(receipts: seq<Receipt>): nat {
    if receipts == [] then 0 else GasOf(receipts[..|receipts| - 1]) + receipts[|receipts| - 1].gasUsed
  }

  /** What has been done is what the trace says, and the gas is its sum in 64 bits. */
  ghost predicate Sums(txs: seq<Transaction>, t: Trace, d: Done)
    requires |t.receipts| == |txs| && |t.logs| == |txs| + 1
  {
    && d.log == t.logs[|txs|] && d.receipts == t.receipts && d.gasUsed == GasOf(t.receipts) % 0x1_0000_0000_0000_0000
    && (forall id: TxId :: id in d.processed <==> exists k :: 0 <= k < |txs| && txs[k].id == id)
    && (forall k :: 0 <= k < |txs| ==> txs[k].id in d.processed && d.processed[txs[k].id] == t.receipts[k].reverted)
  }

  lemma ModAdd(a: nat, b: nat)
    ensures (a % TWO64 + b) % TWO64 == (a + b) % TWO64
  {
  }

  lemma GasOneMore(receipts: seq<Receipt>, r: Receipt, used: Uint64)
    requires used == GasOf(receipts) % 0x1_0000_0000_0000_0000
    ensures Add64(used, r.gasUsed) == GasOf(receipts + [r]) % 0x1_0000_0000_0000_0000
  {
    assert (receipts + [r])[..|receipts|] == receipts;
    ModAdd(GasOf(receipts), r.gasUsed);
  }

  /** What the packer and the validator ask of the next transaction is that it is new and finds what it waits for. */
  lemma NextMay(env: Env, txs: seq<Transaction>, t: Trace, d: Done, tx: Transaction, r: Receipt)
    requires |t.receipts| == |txs| && |t.logs| == |txs| + 1 && Sums(txs, t, d)
    requires forall i, k :: 0 <= i < k < |txs| ==> txs[i].id != txs[k].id
    ensures !Known(env, d.processed, tx) <==>
            !env.onChain(tx.id, tx.blockRef) && forall k :: 0 <= k < |txs| ==> txs[k].id != tx.id
    ensures FindDep(env, d.processed, tx) !in {DepMissing, DepReverted} <==>
            DepMet(env, txs + [tx], t.receipts + [r], |txs|)
  {
    var txs', rs' := txs + [tx], t.receipts + [r];
    assert forall k :: 0 <= k < |txs| ==> txs'[k] == txs[k] && rs'[k] == t.receipts[k];
    assert txs'[|txs|] == tx;
    if tx.dependsOn.Some? {
      var id := tx.dependsOn.value;
      if id in d.processed {
        var k :| 0 <= k < |txs| && txs[k].id == id;
        assert txs'[k].id == id;
        assert forall i: nat :: i < |txs| && txs'[i].id == id ==> i == k;
      }
    }
  }

  /** The trace with one transaction more. */
  function Longer(t: Trace, r: Receipt, log: Log): Trace { Trace(t.logs + [log], t.receipts + [r]) }

  lemma SumsMore(txs: seq<Transaction>, t: Trace, d: Done, tx: Transaction, r: Receipt, log: Log)
    requires |t.receipts| == |txs| && |t.logs| == |txs| + 1 && Sums(txs, t, d)
    requires forall k :: 0 <= k < |txs| ==> txs[k].id != tx.id
    ensures Sums(txs + [tx], Longer(t, r, log),
                 Done(log, d.processed[tx.id := r.reverted], Add64(d.gasUsed, r.gasUsed), d.receipts + [r]))
  {
    hide GasOf, Add64;
    var txs', t' := txs + [tx], Longer(t, r, log);
    var processed := d.processed[tx.id := r.reverted];
    GasOneMore(t.receipts, r, d.gasUsed);
    forall k | 0 <= k < |txs'| ensures txs'[k].id in processed && processed[txs'[k].id] == t'.receipts[k].reverted {
      if k < |txs| { assert txs'[k] == txs[k]; }
    }
    forall id: TxId ensures id in processed <==> exists k :: 0 <= k < |txs'| && txs'[k].id == id {
      if id in d.processed {
        var k :| 0 <= k < |txs| && txs[k].id == id;
        assert txs'[k].id == id;
      }
      if id == tx.id { assert txs'[|txs|].id == id; }
    }
  }

  lemma DepsKept(env: Env, txs: seq<Transaction>, receipts: seq<Receipt>, tx: Transaction, r: Receipt, i: nat)
    requires i < |txs| == |receipts|
    ensures DepMet(env, txs + [tx], receipts + [r], i) <==> DepMet(env, txs, receipts, i)
  {
    var txs', rs' := txs + [tx], receipts + [r];
    assert forall k: nat :: k <= i ==> txs'[k] == txs[k] && rs'[k] == receipts[k];
  }

  /** A trace goes on exactly with a new transaction that finds what it waits for and runs. */
  lemma TracedMore(env: Env, ctx: Context, start: Log, txs: seq<Transaction>, t: Trace, tx: Transaction, r: Receipt,
                   log: Log)
    requires EnvOk(env) && |t.receipts| == |txs| && |t.logs| == |txs| + 1
    ensures Traced(env, ctx, start, txs + [tx], Longer(t, r, log)) <==>
            && Traced(env, ctx, start, txs, t) && Outcomes(env, ctx, t.logs[|txs|], tx) == Outcome(Some(r), log)
            && !env.onChain(tx.id, tx.blockRef) && (forall k :: 0 <= k < |txs| ==> txs[k].id != tx.id)
            && DepMet(env, txs + [tx], t.receipts + [r], |txs|)
  {
    hide EnvOk, Outcomes, DepMet;
    var n, txs', t' := |txs|, txs + [tx], Longer(t, r, log);
    assert forall i :: 0 <= i < n ==> txs'[i] == txs[i] && t'.receipts[i] == t.receipts[i];
    assert forall i :: 0 <= i <= n ==> t'.logs[i] == t.logs[i];
    assert txs'[n] == tx && t'.receipts[n] == r && t'.logs[n + 1] == log;
    forall i | 0 <= i < n ensures DepMet(env, txs', t'.receipts, i) <==> DepMet(env, txs, t.receipts, i) {
      DepsKept(env, txs, t.receipts, tx, r, i);
    }
  }

  /** A run leaves a trace. */
  lemma {:induction false} RunLeavesTrace(env: Env, ctx: Context, start: Log, txs: seq<Transaction>) returns (t: Trace)
    requires EnvOk(env) && RunAll(env, ctx, start, txs).Some?
    ensures Traced(env, ctx, start, txs, t) && Sums(txs, t, RunAll(env, ctx, start, txs).value)
  {
    hide EnvOk, Outcomes, Traced, Sums, Known, FindDep, DepMet, Add64, GasOf;
    if txs == [] {
      t := Trace([start], []);
      EmptyTrace(env, ctx, start, t);
    } else {
      var n := |txs| - 1;
      var init, tx := txs[..n], txs[n];
      assert txs == init + [tx];
      t := RunLeavesTrace(env, ctx, start, init);
      var d := RunAll(env, ctx, start, init).value;
      TracedIs(env, ctx, start, init, t, d);
      var o := Outcomes(env, ctx, d.log, tx);
      NextMay(env, init, t, d, tx, o.receipt.value);
      TracedMore(env, ctx, start, init, t, tx, o.receipt.value, o.log);
      SumsMore(init, t, d, tx, o.receipt.value, o.log);
      t := Longer(t, o.receipt.value, o.log);
    }
  }

  lemma EmptyTrace(env: Env, ctx: Context, start: Log, t: Trace)
    requires EnvOk(env) && t == Trace([start], [])
    ensures Traced(env, ctx, start, [], t) && Sums([], t, Done(start, map[], 0, []))
  {
    hide EnvOk;
  }

  lemma TracedIs(env: Env, ctx: Context, start: Log, txs: seq<Transaction>, t: Trace, d: Done)
    requires EnvOk(env) && Traced(env, ctx, start, txs, t) && Sums(txs, t, d)
    ensures |t.receipts| == |txs| && |t.logs| == |txs| + 1 && d.log == t.logs[|txs|]
    ensures forall i, k :: 0 <= i < k < |txs| ==> txs[i].id != txs[k].id
  {
    hide EnvOk, Outcomes, DepMet;
  }

  /** What a trace describes runs, to what the trace says. */
  lemma {:induction false} TraceRuns(env: Env, ctx: Context, start: Log, txs: seq<Transaction>, t: Trace)
    requires EnvOk(env) && |t.receipts| == |txs| && |t.logs| == |txs| + 1 && Traced(env, ctx, start, txs, t)
    ensures RunAll(env, ctx, start, txs).Some? && Sums(txs, t, RunAll(env, ctx, start, txs).value)
    decreases |txs|
  {
    hide EnvOk, Outcomes, Traced, Sums, Known, FindDep, DepMet, Add64, GasOf;
    if txs == [] {
      assert t == Trace([start], []) by { TraceStart(env, ctx, start, t); }
      EmptyTrace(env, ctx, start, t);
    } else {
      var n := |txs| - 1;
      var init, tx := txs[..n], txs[n];
      var t0, r, log := Trace(t.logs[..n + 1], t.receipts[..n]), t.receipts[n], t.logs[n + 1];
      assert txs == init + [tx] && t == Longer(t0, r, log);
      TracedMore(env, ctx, start, init, t0, tx, r, log);
      TraceRuns(env, ctx, start, init, t0);
      var d := RunAll(env, ctx, start, init).value;
      TracedIs(env, ctx, start, init, t0, d);
      NextMay(env, init, t0, d, tx, r);
      SumsMore(init, t0, d, tx, r, log);
    }
  }

  lemma TraceStart(env: Env, ctx: Context, start: Log, t: Trace)
    requires EnvOk(env) && Traced(env, ctx, start, [], t)
    ensures t == Trace([start], [])
  {
    hide EnvOk;
  }

  // ---- whole blocks ----

  /**
   An acceptable block, part by part: its features, its numbers, its signer in turn with the score of the schedule,
   its transactions one after another on the parent's state with the updates of the schedule, and what it tells of them.
   */
  ghost predicate Sound(env: Env, header: Header, parent: Parent, poa: Poa, now: nat, sched: Scheduler, t: Trace)
    requires EnvOk(env)
  {
    && header.features == (if header.number >= env.forks.vip191 then 1 else 0)
    && HeaderOk(env, header, parent, now)
    && (forall tx :: tx in header.txs ==> Packable(env, ContextOf(header), header.features, tx))
    && Made(sched, header.signer, parent, poa) && sched.shuffled != []
    && sched.IsScheduled(header.timestamp, header.signer)
    && header.totalScore == parent.totalScore + |sched.shuffled| - |PassedSlots(sched, header.timestamp)|
    && Traced(env, ContextOf(header), Applied(env, [], sched.Changes(header.timestamp)), header.txs, t)
    && header.receipts == t.receipts && header.gasUsed == GasOf(t.receipts) % 0x1_0000_0000_0000_0000
    && header.stateRoot == env.stateRoot(t.logs[|header.txs|])
  }

  lemma InTurnIff(env: Env, header: Header, parent: Parent, poa: Poa, sched: Scheduler)
    requires Made(sched, header.signer, parent, poa)
    ensures sched.shuffled != []
    ensures InTurn(env, sched, parent, ContextOf(header), Applied(env, [], sched.Changes(header.timestamp))) <==>
            && sched.IsScheduled(header.timestamp, header.signer)
            && header.totalScore == parent.totalScore + |sched.shuffled| - |PassedSlots(sched, header.timestamp)|
  {
    hide MadeFor, PassedSlots, Applied, sched.Score, sched.Changes;
    MadeProposer(sched, header.signer, parent, poa);
    ScoreIs(sched, header.timestamp);
  }

  lemma MadeProposer(sched: Scheduler, signer: Bytes, parent: Parent, poa: Poa)
    requires Made(sched, signer, parent, poa)
    ensures sched.shuffled != [] && sched.proposer.address == signer
  {
  }

  lemma AcceptedIsSound(env: Env, header: Header, parent: Parent, poa: Poa, now: nat)
    returns (sched: Scheduler, t: Trace)
    requires EnvOk(env) && Acceptable(env, header, parent, poa, now)
    ensures Sound(env, header, parent, poa, now, sched, t)
  {
    hide EnvOk, HeaderOk, Packable, MadeFor, RunAll, Traced, PassedSlots, Applied, GasOf, Made, InTurn;
    sched :| RunsTo(env, header, parent, poa, sched);
    InTurnIff(env, header, parent, poa, sched);
    var start := Applied(env, [], sched.Changes(header.timestamp));
    t := RunLeavesTrace(env, ContextOf(header), start, header.txs);
  }

  lemma SoundIsAccepted(env: Env, header: Header, parent: Parent, poa: Poa, now: nat, sched: Scheduler, t: Trace)
    requires EnvOk(env) && Sound(env, header, parent, poa, now, sched, t)
    ensures Acceptable(env, header, parent, poa, now)
  {
    hide EnvOk, HeaderOk, Packable, MadeFor, RunAll, PassedSlots, Applied, GasOf, Made, InTurn, Outcomes, DepMet;
    InTurnIff(env, header, parent, poa, sched);
    TraceRuns(env, ContextOf(header), Applied(env, [], sched.Changes(header.timestamp)), header.txs, t);
    assert RunsTo(env, header, parent, poa, sched);
  }
}
