/**
 Running a transaction on the state (runtime/runtime.go, runtime/resolved_tx.go): resolving it, buying gas,
 executing clauses above a checkpoint, going back to the checkpoint when one fails, settling.
 */
module Runtime {
  import opened ByteStrings
  import opened GasLimit
  import opened StackedMap
  import opened StateJournal
  import opened State
  import opened StateDb
  import opened Ledger

  // ---- transactions ----

  datatype Clause = Clause(to: Option<Address>, data: Bytes, value: int)

  /** `readable`: origin, delegator and intrinsic gas can be worked out from signature and data. */
  datatype Tx = Tx(readable: bool, origin: Address, delegator: Option<Address>, intrinsicGas: nat, gas: Uint64,
                   gasPriceCoef: Byte, clauses: seq<Clause>)

  const MAX_UINT256 := 0xFFFF_FFFF_FFFF_FFFF_FFFF_FFFF_FFFF_FFFF_FFFF_FFFF_FFFF_FFFF_FFFF_FFFF_FFFF_FFFF

  lemma MaxIs256Bits()
    ensures MAX_UINT256 + 1 == TWO64 * TWO64 * TWO64 * TWO64
  {
  }

  function SumOfValues(clauses: seq<Clause>): int {
    if clauses == [] then 0 else SumOfValues(clauses[..|clauses| - 1]) + clauses[|clauses| - 1].value
  }

  ghost predicate NoNegative(clauses: seq<Clause>) { forall i :: 0 <= i < |clauses| ==> clauses[i].value >= 0 }

  /** The gas covers the intrinsic gas, no value is negative, and the values together fit 256 bits. */
  ghost predicate Resolvable(tx: Tx) {
    tx.readable && tx.intrinsicGas <= tx.gas && NoNegative(tx.clauses) && SumOfValues(tx.clauses) <= MAX_UINT256
  }

  lemma {:induction false} SumGrows(clauses: seq<Clause>, n: nat)
    requires NoNegative(clauses) && n <= |clauses|
    ensures SumOfValues(clauses[..n]) <= SumOfValues(clauses)
    decreases |clauses|
  {
    if n == |clauses| {
      assert clauses[..n] == clauses;
    } else {
      assert clauses[..|clauses| - 1][..n] == clauses[..n];
      SumGrows(clauses[..|clauses| - 1], n);
    }
  }

  /** The sum of the first n + 1 values is at least that of the first n and fits 256 bits. */
  ghost predicate RisesAt(clauses: seq<Clause>, n: nat)
    requires n < |clauses|
  {
    SumOfValues(clauses[..n]) <= SumOfValues(clauses[..n + 1]) <= MAX_UINT256
  }

  lemma RisesBy(clauses: seq<Clause>, n: nat)
    requires n < |clauses|
    ensures RisesAt(clauses, n) <==> clauses[n].value >= 0 && SumOfValues(clauses[..n + 1]) <= MAX_UINT256
  {
    assert clauses[..n + 1][..n] == clauses[..n];
  }

  lemma ResolvableIff(tx: Tx)
    ensures Resolvable(tx) <==>
            tx.readable && tx.gas >= tx.intrinsicGas && forall n: nat :: n < |tx.clauses| ==> RisesAt(tx.clauses, n)
  {
    hide RisesAt, SumOfValues;
    var cs := tx.clauses;
    WholeSum(cs);
    if Resolvable(tx) {
      forall n: nat | n < |cs| ensures RisesAt(cs, n) {
        RisesBy(cs, n);
        SumGrows(cs, n + 1);
      }
    }
    if forall n: nat :: n < |cs| ==> RisesAt(cs, n) {
      forall n: nat | n < |cs| ensures cs[n].value >= 0 && SumOfValues(cs[..n + 1]) <= MAX_UINT256 {
        assert RisesAt(cs, n);
        RisesBy(cs, n);
      }
      if cs != [] { assert cs[|cs| - 1].value >= 0; }
    }
  }

  lemma WholeSum(clauses: seq<Clause>)
    ensures if clauses == [] then SumOfValues(clauses) == 0
            else clauses[..(|clauses| - 1) + 1] == clauses
  {
  }

  method ResolveTransaction(tx: Tx) returns (ok: bool)
    ensures ok <==> Resolvable(tx)
  {
    if !tx.readable || tx.gas < tx.intrinsicGas { return false; }
    var sumValue := 0;
    for i := 0 to |tx.clauses|
      invariant NoNegative(tx.clauses[..i]) && sumValue == SumOfValues(tx.clauses[..i]) <= MAX_UINT256
    {
      var value := tx.clauses[i].value;
      if value < 0 { return false; }
      assert tx.clauses[..i + 1][..i] == tx.clauses[..i];
      sumValue := sumValue + value;
      if sumValue > MAX_UINT256 {
        if NoNegative(tx.clauses) { SumGrows(tx.clauses, i + 1); }
        return false;
      }
    }
    assert tx.clauses[..|tx.clauses|] == tx.clauses;
    ok := true;
  }

  ghost predicate Common(clauses: seq<Clause>, to: Address) {
    clauses != [] && forall i :: 0 <= i < |clauses| ==> clauses[i].to == Some(to)
  }

  function CommonOf(clauses: seq<Clause>): (r: Option<Address>)
    ensures match r case Some(to) => Common(clauses, to) case None => forall to :: !Common(clauses, to)
  {
    if clauses != [] && forall i :: 0 <= i < |clauses| ==> clauses[i].to == clauses[0].to then clauses[0].to else None
  }

  /** The one receiver of all clauses, if there is one. */
  method CommonTo(clauses: seq<Clause>) returns (r: Option<Address>)
    ensures r == CommonOf(clauses)
    ensures match r case Some(to) => Common(clauses, to) case None => forall to :: !Common(clauses, to)
  {
    if clauses == [] { return None; }
    var first := clauses[0].to;
    if first.None? { return None; }
    for i := 1 to |clauses|
      invariant forall k :: 0 <= k < i ==> clauses[k].to == first
    {
      var to := clauses[i].to;
      if to.None? || to != first { return None; }
    }
    r := first;
  }

  lemma OneCommon(clauses: seq<Clause>, to: Address)
    requires Common(clauses, to)
    ensures forall x :: Common(clauses, x) ==> x == to
  {
    assert clauses[0].to == Some(to);
  }

  // ---- what a block provides ----

  /** What a clause is run with. */
  datatype Call = Call(tx: Tx, payer: Address, index: nat, gas: nat)

  datatype Output = Output(leftOverGas: nat, refundGas: nat, vmErr: bool, logs: Bytes)

  /** What the virtual machine does to the state, and what it returns unless it breaks down on the way. */
  datatype Exec = Exec(ops: seq<VmOp>, output: Option<Output>)

  /** The books at the block's time, what is read from the state and from the chain, and the virtual machine. */
  datatype Block = Block(
    books: Books,
    beneficiary: Address,
    baseGasPrice: Log -> nat,                      // params
    rewardRatio: Log -> nat,                       // params
    sponsorOf: (Log, Address) -> Address,          // CurrentSponsor
    isSponsor: (Log, Address, Address) -> bool,    // IsSponsor
    hasContext: Tx -> bool,                        // ToContext finds the block the transaction refers to
    workGas: Tx -> Option<nat>,                    // proved work in gas; None when that block is not found
    exec: (Log, Call) -> Exec)

  /** The machine returns no more gas than it was given, and reverts only to snapshots of its own. */
  ghost predicate MachineOk(b: Block) {
    b.books.codec.Ok() && forall j: Log, call: Call :: Disciplined(b.books, j, call, b.exec(j, call))
  }

  ghost predicate Disciplined(bk: Books, j: Log, call: Call, e: Exec) {
    LegalRun(bk.w, bk.h, Vm(j, []), e.ops) && (e.output.Some? ==> e.output.value.leftOverGas <= call.gas)
  }

  lemma Discipline(b: Block, j: Log, call: Call)
    requires MachineOk(b)
    ensures Disciplined(b.books, j, call, b.exec(j, call))
  {
  }

  // ---- buying gas ----

  function GasPrice(base: nat, coef: Byte): nat { (coef as int) * base / 255 + base }

  /** The base price and, by the coefficient, up to as much again, in steps of a 255th rounded down. */
  lemma PriceIs(base: nat, coef: Byte)
    ensures var extra := GasPrice(base, coef) - base;
            0 <= extra <= base && 255 * extra <= (coef as int) * base < 255 * (extra + 1)
    ensures GasPrice(base, 0) == base && GasPrice(base, 255) == 2 * base
  {
    Floor((coef as int) * base, 255);
    assert (coef as int) * base <= 255 * base;
    assert 255 * base / 255 == base;
  }

  /** What an amount of gas costs in energy. */
  function Cost(price: nat, gas: nat): nat { gas * price }

  /** Who buys the gas, on whose credit, at which price. */
  datatype Deal = Deal(payer: Address, credit: Option<(Address, nat)>, base: nat, price: nat)

  function Price(b: Block, j: Log, tx: Tx): nat { GasPrice(b.baseGasPrice(j), tx.gasPriceCoef) }

  function Prepaid(b: Block, j: Log, tx: Tx): nat { Cost(Price(b, j, tx), tx.gas) }

  function Offer(b: Block, j: Log, tx: Tx, payer: Address, credit: Option<(Address, nat)>): Option<Deal> {
    if b.books.CanPay(j, payer, Prepaid(b, j, tx)) then Some(Deal(payer, credit, b.baseGasPrice(j), Price(b, j, tx)))
    else None
  }

  /** By credit: the sponsor, or else the receiver. */
  function CreditOffer(b: Block, j: Log, tx: Tx, to: Address): Option<Deal> {
    var credit, sponsor := b.books.UserCredit(j, to, tx.origin), b.sponsorOf(j, to);
    if credit < Prepaid(b, j, tx) then None
    else if b.isSponsor(j, to, sponsor) && Offer(b, j, tx, sponsor, Some((to, credit))).Some? then
      Offer(b, j, tx, sponsor, Some((to, credit)))
    else Offer(b, j, tx, to, Some((to, credit)))
  }

  function Buy(b: Block, j: Log, tx: Tx): Option<Deal> {
    match tx.delegator
    case Some(d) => Offer(b, j, tx, d, None)
    case None =>
      var to := CommonOf(tx.clauses);
      if to.Some? && CreditOffer(b, j, tx, to.value).Some? then CreditOffer(b, j, tx, to.value)
      else Offer(b, j, tx, tx.origin, None)
  }

  /** The journal after the payer is charged for all the gas in advance. */
  function Charged(b: Block, j: Log, tx: Tx, d: Deal): Log { b.books.Sub(j, d.payer, Cost(d.price, tx.gas)) }

  predicate Sponsored(b: Block, j: Log, tx: Tx, to: Address) {
    b.isSponsor(j, to, b.sponsorOf(j, to)) && b.books.CanPay(j, b.sponsorOf(j, to), Prepaid(b, j, tx))
  }

  /** The common receiver has credit for the origin, and it or its sponsor can pay. */
  ghost predicate CreditPays(b: Block, j: Log, tx: Tx) {
    exists to :: Common(tx.clauses, to) && b.books.UserCredit(j, to, tx.origin) >= Prepaid(b, j, tx)
                 && (Sponsored(b, j, tx, to) || b.books.CanPay(j, to, Prepaid(b, j, tx)))
  }

  ghost predicate SomeonePays(b: Block, j: Log, tx: Tx) {
    match tx.delegator
    case Some(d) => b.books.CanPay(j, d, Prepaid(b, j, tx))
    case None => CreditPays(b, j, tx) || b.books.CanPay(j, tx.origin, Prepaid(b, j, tx))
  }

  /** Who pays: the delegator or nobody; else by credit the sponsor or the receiver; else the origin. */
  ghost predicate Pays(b: Block, j: Log, tx: Tx, d: Deal) {
    && b.books.CanPay(j, d.payer, Prepaid(b, j, tx)) && d.price == Price(b, j, tx) && d.base == b.baseGasPrice(j)
    && match tx.delegator
       case Some(x) => d.payer == x && d.credit.None?
       case None =>
         match d.credit
         case Some((to, credit)) =>
           && Common(tx.clauses, to) && credit == b.books.UserCredit(j, to, tx.origin) >= Prepaid(b, j, tx)
           && d.payer == if Sponsored(b, j, tx, to) then b.sponsorOf(j, to) else to
         case None => d.payer == tx.origin && !CreditPays(b, j, tx)
  }

  /** Gas is bought exactly when somebody pays, and by whom the order of payers says. */
  lemma BuyMeans(b: Block, j: Log, tx: Tx)
    ensures Buy(b, j, tx).Some? <==> SomeonePays(b, j, tx)
    ensures Buy(b, j, tx).Some? ==> Pays(b, j, tx, Buy(b, j, tx).value)
  {
    hide Prepaid, Price, b.books.CanPay, b.books.UserCredit;
    var to := CommonOf(tx.clauses);
    if to.Some? { OneCommon(tx.clauses, to.value); }
  }

  method BuyGas(b: Block, st: State, tx: Tx) returns (r: Option<Deal>)
    requires Keeps(st, b.books)
    modifies st.sm
    ensures Keeps(st, b.books) && Above(old(st.sm.mapStack), st.sm.mapStack)
    ensures r == Buy(b, old(st.J()), tx) && (r.Some? <==> SomeonePays(b, old(st.J()), tx))
    ensures st.J() == if r.Some? then Charged(b, old(st.J()), tx, r.value) else old(st.J())
  {
    hide Above, Keeps, Cost, GasPrice, SomeonePays, CommonOf, b.books.Sub, b.books.CanPay, b.books.UserCredit;
    BuyMeans(b, st.J(), tx);
    ghost var s, j := st.sm.mapStack, st.J();
    var base := b.baseGasPrice(st.J());
    var price := GasPrice(base, tx.gasPriceCoef);
    var prepaid := Cost(price, tx.gas);
    if tx.delegator.Some? {
      var ok := SubEnergy(st, b.books, tx.delegator.value, prepaid);
      return if ok then Some(Deal(tx.delegator.value, None, base, price)) else None;
    }
    AboveItself(s);
    var commonTo := CommonTo(tx.clauses);
    if commonTo.Some? {
      var to := commonTo.value;
      var credit := GetCredit(st, b.books, to, tx.origin);
      if credit >= prepaid {
        var sponsor := b.sponsorOf(st.J(), to);
        if b.isSponsor(st.J(), to, sponsor) {
          var ok := SubEnergy(st, b.books, sponsor, prepaid);
          if ok { return Some(Deal(sponsor, Some((to, credit)), base, price)); }
        }
        ghost var s1 := st.sm.mapStack;
        var ok := SubEnergy(st, b.books, to, prepaid);
        AboveTwice(s, s1, st.sm.mapStack);
        if ok { return Some(Deal(to, Some((to, credit)), base, price)); }
      }
    }
    ghost var s2 := st.sm.mapStack;
    var ok := SubEnergy(st, b.books, tx.origin, prepaid);
    AboveTwice(s, s2, st.sm.mapStack);
    r := if ok then Some(Deal(tx.origin, None, base, price)) else None;
  }

  // ---- executing, on the journal ----

  /** How far the clauses have come: the journal, the gas left, the outputs; a failure takes everything back. */
  datatype Ran = Ran(log: Log, leftOverGas: nat, outputs: seq<Bytes>, reverted: bool)

  /** Clauses go on, or the machine broke down and left a journal behind. */
  datatype Progress = Going(ran: Ran) | Broke(log: Log)

  /** The gas left after a clause: the refund is the whole counter, or as much of it as half of the used gas allows. */
  function GasAfter(gas: nat, o: Output): (left: nat)
    requires o.leftOverGas <= gas
    ensures o.leftOverGas <= left <= gas && left <= o.leftOverGas + o.refundGas
    ensures 2 * (gas - left) >= gas - o.leftOverGas
    ensures left == o.leftOverGas + o.refundGas || 2 * (gas - left) <= gas - o.leftOverGas + 1
  {
    o.leftOverGas + Min((gas - o.leftOverGas) / 2, o.refundGas)
  }

  /** One clause after others; a failure leads back to where the clauses started. */
  function RunClause(b: Block, tx: Tx, payer: Address, from: Log, n: nat, r: Ran): Progress
    requires MachineOk(b)
  {
    var call := Call(tx, payer, n, r.leftOverGas);
    var e := b.exec(r.log, call);
    Discipline(b, r.log, call);
    var log := Acted(b.books.w, b.books.h, r.log, e.ops);
    match e.output
    case None => Broke(log)
    case Some(o) =>
      var gas := GasAfter(r.leftOverGas, o);
      if o.vmErr then Going(Ran(from, gas, [], true)) else Going(Ran(log, gas, r.outputs + [o.logs], false))
  }

  /** The first n clauses. */
  function RunClauses(b: Block, tx: Tx, payer: Address, from: Log, n: nat): Progress
    requires MachineOk(b) && tx.intrinsicGas <= tx.gas
  {
    if n == 0 then Going(Ran(from, tx.gas - tx.intrinsicGas, [], false))
    else
      match RunClauses(b, tx, payer, from, n - 1)
      case Broke(log) => Broke(log)
      case Going(r) => if r.reverted then Going(r) else RunClause(b, tx, payer, from, n - 1, r)
  }

  /** After a failure or a breakdown no clause runs. */
  lemma {:induction false} NothingAfter(b: Block, tx: Tx, payer: Address, from: Log, n: nat, m: nat)
    requires MachineOk(b) && tx.intrinsicGas <= tx.gas && n <= m
    requires var p := RunClauses(b, tx, payer, from, n); p.Broke? || p.ran.reverted
    ensures RunClauses(b, tx, payer, from, m) == RunClauses(b, tx, payer, from, n)
    decreases m
  {
    hide MachineOk, RunClause;
    if n < m { NothingAfter(b, tx, payer, from, n, m - 1); }
  }

  /** What one more clause makes of all. */
  lemma OneClauseMore(b: Block, tx: Tx, payer: Address, from: Log, r: Ran, e: Exec, log: Log)
    requires MachineOk(b) && tx.intrinsicGas <= tx.gas && !r.reverted && |r.outputs| < |tx.clauses|
    requires RunClauses(b, tx, payer, from, |r.outputs|) == Going(r)
    requires e == b.exec(r.log, Call(tx, payer, |r.outputs|, r.leftOverGas))
    ensures LegalRun(b.books.w, b.books.h, Vm(r.log, []), e.ops)
    ensures e.output.Some? ==> e.output.value.leftOverGas <= r.leftOverGas
    ensures log == Acted(b.books.w, b.books.h, r.log, e.ops) ==>
              match e.output
              case None => RunClauses(b, tx, payer, from, |tx.clauses|) == Broke(log)
              case Some(o) =>
                var gas := GasAfter(r.leftOverGas, o);
                if o.vmErr then RunClauses(b, tx, payer, from, |tx.clauses|) == Going(Ran(from, gas, [], true))
                else RunClauses(b, tx, payer, from, |r.outputs| + 1) ==
                       Going(Ran(log, gas, r.outputs + [o.logs], false))
  {
    hide MachineOk, LegalRun, VmRun;
    var n := |r.outputs|;
    Discipline(b, r.log, Call(tx, payer, n, r.leftOverGas));
    assert RunClauses(b, tx, payer, from, n + 1) == RunClause(b, tx, payer, from, n, r);
    if e.output.None? || e.output.value.vmErr { NothingAfter(b, tx, payer, from, n + 1, |tx.clauses|); }
  }

  /** Outputs are one for each clause or none; gas does not grow; what was written before the clauses stays. */
  lemma {:induction false} RanIs(b: Block, tx: Tx, payer: Address, from: Log, n: nat)
    requires MachineOk(b) && tx.intrinsicGas <= tx.gas
    ensures match RunClauses(b, tx, payer, from, n)
            case Broke(log) => from <= log
            case Going(r) =>
              && from <= r.log && r.leftOverGas <= tx.gas - tx.intrinsicGas
              && if r.reverted then r.log == from && r.outputs == [] else |r.outputs| == n
  {
    hide MachineOk, LegalRun, VmRun;
    if n > 0 {
      RanIs(b, tx, payer, from, n - 1);
      var p := RunClauses(b, tx, payer, from, n - 1);
      if p.Going? && !p.ran.reverted {
        var call := Call(tx, payer, n - 1, p.ran.leftOverGas);
        Discipline(b, p.ran.log, call);
        OnlyAdds(b.books.w, b.books.h, p.ran.log, Vm(p.ran.log, []), b.exec(p.ran.log, call).ops);
      }
    }
  }

  datatype Receipt = Receipt(reverted: bool, outputs: seq<Bytes>, gasUsed: Uint64, gasPayer: Address, paid: nat,
                             reward: nat)

  /** The receipt, or None for an error, and the journal that is left behind. */
  datatype Outcome = Outcome(receipt: Option<Receipt>, log: Log)

  /** A credit that is drawn on covers all the gas. */
  predicate Covered(tx: Tx, d: Deal) { d.credit.Some? ==> d.credit.value.1 >= Cost(d.price, tx.gas) }

  /** The gas left is turned back into energy, and the credit is charged. */
  function Returned(b: Block, tx: Tx, d: Deal, r: Ran): Log
    requires r.leftOverGas <= tx.gas && Covered(tx, d)
  {
    var returned := Cost(d.price, r.leftOverGas);
    CostSplits(d.price, tx.gas, r.leftOverGas);
    var j := b.books.Add(r.log, d.payer, returned);
    match d.credit
    case None => j
    case Some((to, credit)) => b.books.SetUserCredit(j, to, tx.origin, credit - (Cost(d.price, tx.gas) - returned))
  }

  /** Gas is paid for or returned. */
  lemma CostSplits(price: nat, gas: nat, left: nat)
    requires left <= gas
    ensures Cost(price, gas) == Cost(price, left) + Cost(price, gas - left)
  {
  }

  function Share(x: nat, n: nat): nat
    requires n > 0
  {
    x / n
  }

  function OverallGasPrice(tx: Tx, d: Deal, workGas: nat): nat {
    if workGas == 0 || tx.gas == 0 then d.price else d.price + Share(Cost(d.base, Min(workGas, tx.gas)), tx.gas)
  }

  /** Proved work raises the price by its share in the transaction's gas, at most by the base price. */
  lemma OverallIs(tx: Tx, d: Deal, workGas: nat)
    requires tx.gas > 0
    ensures var extra, work := OverallGasPrice(tx, d, workGas) - d.price, if workGas < tx.gas then workGas else tx.gas;
            0 <= extra <= d.base && tx.gas * extra <= work * d.base < tx.gas * (extra + 1)
  {
    hide Share;
    WorkShare(tx.gas, d.base, if workGas < tx.gas then workGas else tx.gas);
  }

  lemma WorkShare(gas: nat, base: nat, work: nat)
    requires work <= gas && gas > 0
    ensures var extra := Share(Cost(base, work), gas);
            extra <= base && gas * extra <= work * base < gas * (extra + 1) && (work == 0 ==> extra == 0)
  {
    hide Share;
    NoMore(work, gas, base);
    ShareIs(work * base, gas, base);
  }

  lemma NoMore(x: nat, y: nat, n: nat)
    requires x <= y
    ensures x * n <= y * n
  {
    assert y * n == x * n + (y - x) * n;
  }

  lemma ShareIs(x: nat, n: nat, y: nat)
    requires n > 0 && x <= n * y
    ensures n * Share(x, n) <= x < n * (Share(x, n) + 1) && Share(x, n) <= y && (x == 0 ==> Share(x, n) == 0)
  {
    Floor(x, n);
    if x / n > y { MoreThan(n, x / n, y); }
  }

  lemma MoreThan(n: nat, x: nat, y: nat)
    requires n > 0 && x > y
    ensures n * x > n * y
  {
  }

  function Reward(b: Block, tx: Tx, d: Deal, workGas: nat, j: Log, gasUsed: nat): nat {
    Share(Cost(OverallGasPrice(tx, d, workGas), gasUsed) * b.rewardRatio(j), E18)
  }

  function Settled(b: Block, tx: Tx, d: Deal, r: Ran): Outcome
    requires r.leftOverGas <= tx.gas && Covered(tx, d)
  {
    var j, gasUsed := Returned(b, tx, d, r), tx.gas - r.leftOverGas;
    match b.workGas(tx)
    case None => Outcome(None, j)
    case Some(work) =>
      var reward := Reward(b, tx, d, work, j, gasUsed);
      Outcome(Some(Receipt(r.reverted, r.outputs, gasUsed, d.payer, Cost(d.price, gasUsed), reward)),
              b.books.Add(j, b.beneficiary, reward))
  }

  lemma BuyCovers(b: Block, j: Log, tx: Tx)
    ensures Buy(b, j, tx).Some? ==> Covered(tx, Buy(b, j, tx).value)
  {
    hide CommonOf, b.books.CanPay, b.books.UserCredit;
  }

  /** The clauses of a transaction for which gas was bought. */
  function AllClauses(b: Block, j: Log, tx: Tx, d: Deal): (p: Progress)
    requires MachineOk(b) && tx.intrinsicGas <= tx.gas
    ensures p.Going? ==> p.ran.leftOverGas <= tx.gas
  {
    var from := Charged(b, j, tx, d);
    RanIs(b, tx, d.payer, from, |tx.clauses|);
    RunClauses(b, tx, d.payer, from, |tx.clauses|)
  }

  /** A whole transaction: the receipt or an error, and the journal it leaves behind either way. */
  ghost function Execute(b: Block, j: Log, tx: Tx): Outcome
    requires MachineOk(b)
  {
    if !Resolvable(tx) then Outcome(None, j)
    else match Buy(b, j, tx)
      case None => Outcome(None, j)
      case Some(d) =>
        if !b.hasContext(tx) then Outcome(None, Charged(b, j, tx, d))
        else match AllClauses(b, j, tx, d)
          case Broke(log) => Outcome(None, log)
          case Going(r) => BuyCovers(b, j, tx); Settled(b, tx, d, r)
  }

  // ---- executing, on the state ----

  class Executor {
    const b: Block
    const tx: Tx
    const deal: Deal
    const st: State
    const checkpoint: nat
    ghost const mark: Stack<Key, Val>     // the state when the checkpoint was made
    var leftOverGas: nat
    var outputs: seq<Bytes>
    var reverted: bool
    var finalized: bool

    ghost predicate Valid()
      reads this, st.sm
    {
      && MachineOk(b) && Keeps(st, b.books) && Covered(tx, deal)
      && tx.intrinsicGas <= tx.gas && leftOverGas + tx.intrinsicGas <= tx.gas
      && |outputs| <= |tx.clauses| && (reverted ==> outputs == [])
      && mark != [] && checkpoint == |mark| && Above(if reverted then mark else PushTo(mark), st.sm.mapStack)
    }

    ghost function Clauses(n: nat): Progress
      requires MachineOk(b) && tx.intrinsicGas <= tx.gas
    {
      RunClauses(b, tx, deal.payer, Journal(mark), n)
    }

    ghost function State(): Ran
      reads this, st.sm
    {
      Ran(st.J(), leftOverGas, outputs, reverted)
    }

    /** The clauses so far, before the settlement. */
    ghost predicate Running()
      requires Valid()
      reads this, st.sm
    {
      !finalized && Clauses(if reverted then |tx.clauses| else |outputs|) == Going(State())
    }

    /** The checkpoint is made once the gas is bought. */
    constructor (b: Block, tx: Tx, deal: Deal, st: State)
      requires MachineOk(b) && tx.intrinsicGas <= tx.gas && Covered(tx, deal) && Keeps(st, b.books)
      modifies st.sm
      ensures Valid() && Running() && !reverted && outputs == [] && mark == old(st.sm.mapStack)
      ensures this.b == b && this.tx == tx && this.deal == deal && this.st == st
    {
      this.b, this.tx, this.deal, this.st := b, tx, deal, st;
      leftOverGas, outputs, reverted, finalized := tx.gas - tx.intrinsicGas, [], false, false;
      mark := st.sm.mapStack;
      var revision := st.NewCheckpoint();
      checkpoint := revision;
      new;
      AboveItself(st.sm.mapStack);
    }

    predicate HasNextClause()
      reads this
    {
      !reverted && |outputs| < |tx.clauses|
    }

    /** The state is what it was when the checkpoint was made. */
    method Undo()
      requires Valid() && !reverted
      modifies st.sm
      ensures Keeps(st, b.books) && st.sm.mapStack == mark && Above(mark, mark)
    {
      hide MachineOk, Above, Journal, StackOk, LevelsOk, IndexOk, Cost;
      CheckpointRestores(mark, st.sm.mapStack);
      AboveItself(mark);
      st.RevertTo(checkpoint);
    }

    /** One clause. When it fails the state goes back to the checkpoint: nothing but the purchase is left. */
    method Next() returns (ok: bool)
      requires Valid() && Running() && HasNextClause()
      modifies this, st.sm
      ensures Valid() && leftOverGas <= old(leftOverGas)
      ensures if ok then Running() && (reverted || |outputs| == |old(outputs)| + 1)
              else Clauses(|tx.clauses|) == Broke(st.J())
    {
      hide MachineOk, Above, LegalRun, VmRun, RunClauses, Journal, StackOk, LevelsOk, IndexOk, Cost;
      var call := Call(tx, deal.payer, |outputs|, leftOverGas);
      var e := b.exec(st.J(), call);
      ghost var s, r := st.sm.mapStack, State();
      OneClauseMore(b, tx, deal.payer, Journal(mark), r, e, []);
      Act(st, e.ops);
      AboveTwice(PushTo(mark), s, st.sm.mapStack);
      OneClauseMore(b, tx, deal.payer, Journal(mark), r, e, st.J());
      if e.output.None? { return false; }
      var output := e.output.value;
      var gasUsed := leftOverGas - output.leftOverGas;
      leftOverGas := output.leftOverGas;
      var refund := Min(gasUsed / 2, output.refundGas);
      leftOverGas := leftOverGas + refund;
      if output.vmErr {
        Undo();
        reverted := true;
        outputs := [];
        return true;
      }
      outputs := outputs + [output.logs];
      ok := true;
    }

    /** All clauses, up to the first that fails. */
    method ProcessClauses() returns (ok: bool)
      requires Valid() && Running()
      modifies this, st.sm
      ensures Valid() && if ok then Running() && !HasNextClause() else Clauses(|tx.clauses|) == Broke(st.J())
    {
      hide Valid, Running, Clauses;
      while HasNextClause()
        invariant Valid() && Running()
        decreases !reverted, |tx.clauses| - |outputs|
      {
        ok := Next();
        if !ok { return; }
      }
      ok := true;
    }

    method Finalize() returns (r: Option<Receipt>)
      requires Valid()
      modifies this, st.sm
      ensures Valid() && State().(log := []) == old(State()).(log := [])
      ensures if old(HasNextClause()) || old(finalized)
              then r.None? && st.J() == old(st.J()) && finalized == old(finalized)
              else Outcome(r, st.J()) == Settled(b, tx, deal, old(State())) && finalized
    {
      hide MachineOk, Above, Journal, Cost, Reward, b.books.Add, b.books.SetUserCredit;
      if HasNextClause() || finalized { return None; }
      finalized := true;
      ghost var base, s0 := if reverted then mark else PushTo(mark), st.sm.mapStack;
      CostSplits(deal.price, tx.gas, leftOverGas);
      var gasUsed := tx.gas - leftOverGas;
      ReturnGas();
      var work := b.workGas(tx);
      if work.None? { return None; }
      var reward := Reward(b, tx, deal, work.value, st.J(), gasUsed);
      ghost var s1 := st.sm.mapStack;
      AddEnergy(st, b.books, b.beneficiary, reward);
      AboveTwice(base, s1, st.sm.mapStack);
      r := Some(Receipt(reverted, outputs, gasUsed, deal.payer, Cost(deal.price, gasUsed), reward));
    }

    /** doReturnGas, doReturnGasAndSetCredit */
    method ReturnGas()
      requires Valid()
      modifies st.sm
      ensures Valid() && st.J() == Returned(b, tx, deal, old(State()))
    {
      hide MachineOk, Above, Journal, Cost, b.books.Add, b.books.SetUserCredit;
      ghost var base, s0 := if reverted then mark else PushTo(mark), st.sm.mapStack;
      CostSplits(deal.price, tx.gas, leftOverGas);
      var returnedEnergy := Cost(deal.price, leftOverGas);
      AddEnergy(st, b.books, deal.payer, returnedEnergy);
      ghost var s1 := st.sm.mapStack;
      AboveTwice(base, s0, s1);
      if deal.credit.Some? {
        var (to, credit) := deal.credit.value;
        var usedEnergy := Cost(deal.price, tx.gas) - returnedEnergy;
        SetCredit(st, b.books, to, tx.origin, credit - usedEnergy);
        AboveTwice(base, s1, st.sm.mapStack);
      }
    }
  }

  /** The state ends where Execute says, error or not, and nothing below where it stood is dug into. */
  method ExecuteTransaction(b: Block, st: State, tx: Tx) returns (r: Option<Receipt>)
    requires MachineOk(b) && Keeps(st, b.books)
    modifies st.sm
    ensures Keeps(st, b.books) && Above(old(st.sm.mapStack), st.sm.mapStack)
    ensures Outcome(r, st.J()) == Execute(b, old(st.J()), tx)
  {
    hide MachineOk, Above, Journal, Cost, Buy, Charged, Settled, RunClauses, Resolvable, SomeonePays;
    ghost var s := st.sm.mapStack;
    AboveItself(s);
    var resolved := ResolveTransaction(tx);
    if !resolved { return None; }
    ResolvedGas(tx);
    BuyCovers(b, st.J(), tx);
    var bought := BuyGas(b, st, tx);
    if bought.None? { return None; }
    if !b.hasContext(tx) { return None; }
    ghost var mark := st.sm.mapStack;
    var e := new Executor(b, tx, bought.value, st);
    var ok := e.ProcessClauses();
    AboveMark(s, mark, e.reverted, st.sm.mapStack);
    if !ok { return None; }
    assert |e.outputs| == |tx.clauses| || e.reverted;
    r := e.Finalize();
    AboveMark(s, mark, e.reverted, st.sm.mapStack);
  }

  lemma ResolvedGas(tx: Tx)
    requires Resolvable(tx)
    ensures tx.intrinsicGas <= tx.gas
  {
  }

  lemma AboveMark(s: Stack<Key, Val>, mark: Stack<Key, Val>, reverted: bool, s': Stack<Key, Val>)
    requires Above(s, mark) && Above(if reverted then mark else PushTo(mark), s')
    ensures Above(s, s')
  {
    hide Above;
    if !reverted {
      AbovePush(mark);
      AboveTwice(mark, PushTo(mark), s');
    }
    AboveTwice(s, mark, s');
  }
}
