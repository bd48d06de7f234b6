/**
 The clauses of a transaction one after another (runtime/runtime.go:408-459): which are run, on which state and gas,
 and what a failure or a breakdown at one of them leaves.
 */
module Clauses {
  import opened ByteStrings
  import opened StateJournal
  import opened StateDb
  import opened Ledger
  import opened Runtime

  /** The journals and the gas before each clause and after the last, and the outputs. */
  datatype Trace = Trace(logs: seq<Log>, gas: seq<nat>, outputs: seq<Bytes>)

  /** What the machine does for the clause with this index. */
  function ExecOf(b: Block, tx: Tx, payer: Address, i: nat, log: Log, gas: nat): Exec {
    b.exec(log, Call(tx, payer, i, gas))
  }

  /** The gas given less the gas used, plus the refund counter as far as half of the used gas goes. */
  ghost predicate Refunded(gas: nat, o: Output, left: nat) {
    var used := gas - o.leftOverGas;
    && used >= 0 && left >= o.leftOverGas
    && left - o.leftOverGas == if 2 * o.refundGas <= used then o.refundGas else used / 2
  }

  ghost predicate Acts(b: Block, log: Log, e: Exec, log': Log) {
    LegalRun(b.books.w, b.books.h, Vm(log, []), e.ops) && log' == Acted(b.books.w, b.books.h, log, e.ops)
  }

  /** Clause i goes through. */
  ghost predicate Through(b: Block, tx: Tx, payer: Address, t: Trace, i: nat)
    requires i < |t.outputs| && |t.logs| == |t.gas| == |t.outputs| + 1
  {
    var e := ExecOf(b, tx, payer, i, t.logs[i], t.gas[i]);
    && e.output.Some? && !e.output.value.vmErr && Acts(b, t.logs[i], e, t.logs[i + 1])
    && Refunded(t.gas[i], e.output.value, t.gas[i + 1]) && t.outputs[i] == e.output.value.logs
  }

  /** The first clauses go through one after another, from the purchase on, with the gas beyond the intrinsic gas. */
  ghost predicate Traced(b: Block, tx: Tx, payer: Address, from: Log, t: Trace) {
    && |t.logs| == |t.gas| == |t.outputs| + 1 && t.logs[0] == from && t.gas[0] == tx.gas - tx.intrinsicGas
    && forall i :: 0 <= i < |t.outputs| ==> Through(b, tx, payer, t, i)
  }

  /** What the clauses have come to after n of them, by their trace up to where they stopped. */
  ghost predicate Explains(b: Block, tx: Tx, payer: Address, from: Log, n: nat, t: Trace, p: Progress) {
    && Traced(b, tx, payer, from, t)
    && var k := |t.outputs|;
       match p
       case Going(r) =>
         if !r.reverted then k == n && r == Ran(t.logs[k], t.gas[k], t.outputs, false)
         else
           var e := ExecOf(b, tx, payer, k, t.logs[k], t.gas[k]);
           && k < n && e.output.Some? && e.output.value.vmErr && Refunded(t.gas[k], e.output.value, r.leftOverGas)
           && r.log == from && r.outputs == []
       case Broke(log) =>
         var e := ExecOf(b, tx, payer, k, t.logs[k], t.gas[k]);
         k < n && e.output.None? && Acts(b, t.logs[k], e, log)
  }

  lemma RefundIs(gas: nat, o: Output)
    requires o.leftOverGas <= gas
    ensures Refunded(gas, o, GasAfter(gas, o))
  {
    hide GasAfter;
  }

  /** Clauses run in order, each with its index on what the ones before have left, until one fails or breaks down. */
  lemma {:induction false} ClausesExplained(b: Block, tx: Tx, payer: Address, from: Log, n: nat) returns (t: Trace)
    requires MachineOk(b) && tx.intrinsicGas <= tx.gas
    ensures Explains(b, tx, payer, from, n, t, RunClauses(b, tx, payer, from, n))
  {
    hide MachineOk, LegalRun, VmRun;
    if n == 0 {
      t := Trace([from], [tx.gas - tx.intrinsicGas], []);
    } else {
      t := ClausesExplained(b, tx, payer, from, n - 1);
      var p := RunClauses(b, tx, payer, from, n - 1);
      if p.Going? && !p.ran.reverted {
        var call := Call(tx, payer, n - 1, p.ran.leftOverGas);
        var e := b.exec(p.ran.log, call);
        Discipline(b, p.ran.log, call);
        if e.output.Some? {
          RefundIs(p.ran.leftOverGas, e.output.value);
          if !e.output.value.vmErr {
            var log, left := Acted(b.books.w, b.books.h, p.ran.log, e.ops), GasAfter(p.ran.leftOverGas, e.output.value);
            TraceMore(b, tx, payer, from, t, log, left, e.output.value.logs);
            t := Trace(t.logs + [log], t.gas + [left], t.outputs + [e.output.value.logs]);
          }
        }
      }
    }
  }

  lemma TraceMore(b: Block, tx: Tx, payer: Address, from: Log, t: Trace, log: Log, left: nat, out: Bytes)
    requires Traced(b, tx, payer, from, t)
    requires var k := |t.outputs|;
             var e := ExecOf(b, tx, payer, k, t.logs[k], t.gas[k]);
             && e.output.Some? && !e.output.value.vmErr && Acts(b, t.logs[k], e, log)
             && Refunded(t.gas[k], e.output.value, left) && out == e.output.value.logs
    ensures Traced(b, tx, payer, from, Trace(t.logs + [log], t.gas + [left], t.outputs + [out]))
  {
    hide ExecOf, Acts, Refunded;
    var t' := Trace(t.logs + [log], t.gas + [left], t.outputs + [out]);
    forall i | 0 <= i < |t'.outputs| ensures Through(b, tx, payer, t', i) {
      if i < |t.outputs| { assert Through(b, tx, payer, t, i); }
    }
  }
}
