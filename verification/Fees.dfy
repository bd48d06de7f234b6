/** What a transaction costs, whom, and what its failure leaves behind (runtime/runtime.go, runtime/resolved_tx.go). */
module Fees {
  import opened ByteStrings
  import opened GasLimit
  import opened StackedMap
  import opened StateJournal
  import opened State
  import opened StateDb
  import opened Ledger
  import opened Runtime

  lemma Sound(b: Block)
    requires MachineOk(b)
    ensures b.books.codec.Ok()
  {
  }

  function CreditSlots(b: Block, tx: Tx, d: Deal): set<(Address, Bytes)> {
    var c := b.books.codec;
    match d.credit case None => {} case Some((to, _)) => {(c.protoAddr, c.userKey(to, tx.origin))}
  }

  function EnergySlot(b: Block): (Address, Bytes) { (b.books.codec.energyAddr, b.books.codec.totalKey) }

  /** Returning gas changes the payer's energy, the total and the credit, nothing else. */
  lemma ReturnedReads(b: Block, tx: Tx, d: Deal, r: Ran)
    requires b.books.codec.Ok() && r.leftOverGas <= tx.gas && Covered(tx, d)
    ensures var bk, j, j', back := b.books, r.log, Returned(b, tx, d, r), Cost(d.price, r.leftOverGas);
            && bk.SameApart(j, j', {d.payer}, {EnergySlot(b)} + CreditSlots(b, tx, d))
            && bk.TotalsOf(j') == bk.TotalsOf(j).(add := bk.TotalsOf(j).add + back)
            && (forall x: Address :: bk.Energy(j', x) == bk.Energy(j, x) + if x == d.payer then back else 0)
            && (forall to: Address :: bk.PlanOf(j', to) == bk.PlanOf(j, to))
            && (forall to: Address, user: Address ::
                  Drawn(tx, d, to, user) || bk.UserOf(j', to, user) == bk.UserOf(j, to, user))
  {
    hide Cost, b.books.Add, b.books.SetUserCredit, b.books.SameApart, b.books.TotalsOf, b.books.Energy,
      b.books.PlanOf, b.books.UserOf, b.books.UserCredit;
    var bk := b.books;
    CostSplits(d.price, tx.gas, r.leftOverGas);
    var j1 := bk.Add(r.log, d.payer, Cost(d.price, r.leftOverGas));
    bk.AddReads(r.log, d.payer, Cost(d.price, r.leftOverGas));
    bk.CreditApart(r.log, j1, {d.payer});
    if d.credit.Some? {
      var (to, credit) := d.credit.value;
      var left := credit - Cost(d.price, tx.gas - r.leftOverGas);
      bk.CreditReads(j1, to, tx.origin, left);
      bk.SameEnergy(j1, bk.SetUserCredit(j1, to, tx.origin, left), CreditSlots(b, tx, d));
      bk.SameApartTwice(r.log, j1, bk.SetUserCredit(j1, to, tx.origin, left), {d.payer}, {EnergySlot(b)},
                        {}, CreditSlots(b, tx, d));
    } else {
      assert {EnergySlot(b)} + CreditSlots(b, tx, d) == {EnergySlot(b)};
    }
    assert {d.payer} + {} == {d.payer};
  }

  /** The credit the origin has with a contract is the one that was drawn on. */
  predicate Drawn(tx: Tx, d: Deal, to: Address, user: Address) {
    user == tx.origin && d.credit.Some? && d.credit.value.0 == to
  }

  /** A transaction that came to its end: the deal, the clauses, the receipt, the journal. */
  ghost predicate Executed(b: Block, j: Log, tx: Tx, d: Deal, run: Ran, r: Receipt, end: Log)
    requires MachineOk(b)
  {
    && Resolvable(tx) && Buy(b, j, tx) == Some(d) && AllClauses(b, j, tx, d) == Going(run)
    && Execute(b, j, tx) == Outcome(Some(r), end)
  }

  /** A receipt is made exactly when nothing goes wrong on the way; a failing clause is nothing wrong. */
  lemma ReceiptIff(b: Block, j: Log, tx: Tx)
    requires MachineOk(b)
    ensures Execute(b, j, tx).receipt.Some? <==>
            && Resolvable(tx) && Buy(b, j, tx).Some? && b.hasContext(tx)
            && AllClauses(b, j, tx, Buy(b, j, tx).value).Going? && b.workGas(tx).Some?
  {
    hide MachineOk, AllClauses, Buy, Returned, Reward, Cost, b.books.Add, SumOfValues;
  }

  /** All that come to an end are of this kind. */
  lemma WithReceipt(b: Block, j: Log, tx: Tx) returns (d: Deal, run: Ran, r: Receipt, end: Log)
    requires MachineOk(b) && Execute(b, j, tx).receipt.Some?
    ensures Executed(b, j, tx, d, run, r, end)
  {
    hide MachineOk, AllClauses, Buy, Settled, SumOfValues;
    d := Buy(b, j, tx).value;
    run, r, end := AllClauses(b, j, tx, d).ran, Execute(b, j, tx).receipt.value, Execute(b, j, tx).log;
  }

  /** The receipt, and the settled journal. */
  lemma ReceiptIs(b: Block, j: Log, tx: Tx, d: Deal, run: Ran, r: Receipt, end: Log)
    requires MachineOk(b) && Executed(b, j, tx, d, run, r, end)
    ensures tx.intrinsicGas <= r.gasUsed <= tx.gas && r.gasUsed == tx.gas - run.leftOverGas
    ensures r.gasPayer == d.payer && r.paid == Cost(d.price, r.gasUsed)
    ensures r.reverted == run.reverted && r.outputs == run.outputs
    ensures if r.reverted then run.log == Charged(b, j, tx, d) && r.outputs == [] else |r.outputs| == |tx.clauses|
    ensures b.workGas(tx).Some? && Covered(tx, d)
    ensures r.reward == Reward(b, tx, d, b.workGas(tx).value, Returned(b, tx, d, run), r.gasUsed)
    ensures end == b.books.Add(Returned(b, tx, d, run), b.beneficiary, r.reward)
  {
    hide MachineOk, Buy, RunClauses, Cost, Reward, Returned, b.books.Add;
    BuyCovers(b, j, tx);
    RanIs(b, tx, d.payer, Charged(b, j, tx, d), |tx.clauses|);
  }

  /** The receipt in numbers: price, payment and reward, each rounded down where it is divided. */
  lemma ReceiptInNumbers(b: Block, j: Log, tx: Tx, d: Deal, run: Ran, r: Receipt, end: Log)
    requires MachineOk(b) && Executed(b, j, tx, d, run, r, end)
    ensures d.base == b.baseGasPrice(j) && 255 * (d.price - d.base) <= (tx.gasPriceCoef as int) * d.base
    ensures (tx.gasPriceCoef as int) * d.base < 255 * (d.price - d.base + 1)
    ensures r.paid == r.gasUsed * d.price && b.workGas(tx).Some? && Covered(tx, d) && run.leftOverGas <= tx.gas
    ensures var ratio := b.rewardRatio(Returned(b, tx, d, run));
            var due := r.gasUsed * OverallGasPrice(tx, d, b.workGas(tx).value) * ratio;
            1_000_000_000_000_000_000 * r.reward <= due < 1_000_000_000_000_000_000 * (r.reward + 1)
  {
    hide MachineOk, Execute, AllClauses, Buy, Returned, OverallGasPrice, Resolvable, SomeonePays, Charged, Share,
      GasPrice, b.books.CanPay, b.books.UserCredit, b.books.Add;
    ReceiptIs(b, j, tx, d, run, r, end);
    BuyMeans(b, j, tx);
    PriceIs(b.baseGasPrice(j), tx.gasPriceCoef);
    var overall, ratio := OverallGasPrice(tx, d, b.workGas(tx).value), b.rewardRatio(Returned(b, tx, d, run));
    RoundedDown(Cost(overall, r.gasUsed) * ratio, E18);
  }

  lemma RoundedDown(x: nat, n: nat)
    requires n > 0
    ensures n * Share(x, n) <= x < n * (Share(x, n) + 1)
  {
    Floor(x, n);
  }

  /** What was prepaid is paid or returned, and what is burned is what was paid less the reward. */
  lemma EnergyConserved(b: Block, j: Log, tx: Tx, d: Deal, run: Ran, r: Receipt, end: Log)
    requires MachineOk(b) && Executed(b, j, tx, d, run, r, end)
    ensures Prepaid(b, j, tx) == r.paid + Cost(d.price, run.leftOverGas)
    ensures r.paid - r.reward ==
            (b.books.Burned(Charged(b, j, tx, d)) - b.books.Burned(j)) + (b.books.Burned(end) - b.books.Burned(run.log))
  {
    hide MachineOk, b.books.codec.Ok, Execute, Buy, AllClauses, Cost, Price, Returned, Reward, Resolvable,
      SomeonePays, b.books.Add, b.books.Sub, b.books.TotalsOf, b.books.Energy, b.books.SameApart, b.books.CanPay,
      b.books.UserCredit, b.books.PlanOf, b.books.UserOf;
    var bk := b.books;
    Sound(b);
    ReceiptIs(b, j, tx, d, run, r, end);
    BuyMeans(b, j, tx);
    CostSplits(d.price, tx.gas, run.leftOverGas);
    ReturnedReads(b, tx, d, run);
    bk.SubReads(j, d.payer, Cost(d.price, tx.gas));
    bk.AddReads(Returned(b, tx, d, run), b.beneficiary, r.reward);
  }

  /** What settling adds to what the clauses have left: the unused gas to the payer, the reward to the beneficiary. */
  lemma SettlementMoves(b: Block, j: Log, tx: Tx, d: Deal, run: Ran, r: Receipt, end: Log)
    requires MachineOk(b) && Executed(b, j, tx, d, run, r, end)
    ensures forall x: Address :: b.books.Energy(Charged(b, j, tx, d), x) ==
              b.books.Energy(j, x) - if x == d.payer then Cost(d.price, tx.gas) else 0
    ensures forall x: Address :: b.books.Energy(end, x) == b.books.Energy(run.log, x)
              + (if x == d.payer then Cost(d.price, tx.gas - r.gasUsed) else 0)
              + (if x == b.beneficiary then r.reward else 0)
    ensures SameUsers(b, run.log, end, tx, d)
  {
    hide MachineOk, b.books.codec.Ok, Executed, Cost, Returned, Reward, Drawn, b.books.Add, b.books.Sub,
      b.books.TotalsOf, b.books.Energy, b.books.SameApart, b.books.UserCredit, b.books.PlanOf, b.books.UserOf;
    Sound(b);
    ReceiptIs(b, j, tx, d, run, r, end);
    ReturnedReads(b, tx, d, run);
    b.books.SubReads(j, d.payer, Cost(d.price, tx.gas));
    b.books.AddReads(Returned(b, tx, d, run), b.beneficiary, r.reward);
    b.books.CreditApart(Returned(b, tx, d, run), end, {b.beneficiary});
  }

  /** The payer has paid, the beneficiary is rewarded, and no other energy has changed. */
  ghost predicate EnergyMoved(b: Block, j: Log, end: Log, payer: Address, paid: nat, reward: nat) {
    forall x: Address :: b.books.Energy(end, x) ==
      b.books.Energy(j, x) - (if x == payer then paid else 0) + (if x == b.beneficiary then reward else 0)
  }

  /** No plan has changed, and of the users at most the one whose credit was drawn on. */
  ghost predicate SameUsers(b: Block, j: Log, end: Log, tx: Tx, d: Deal) {
    && (forall to: Address :: b.books.PlanOf(end, to) == b.books.PlanOf(j, to))
    && (forall to: Address, user: Address ::
          Drawn(tx, d, to, user) || b.books.UserOf(end, to, user) == b.books.UserOf(j, to, user))
  }

  /** A failed transaction costs its payer what it paid; beside that, the reward and its credit nothing has changed. */
  lemma FailureCostsOnlyGas(b: Block, j: Log, tx: Tx, d: Deal, run: Ran, r: Receipt, end: Log)
    requires MachineOk(b) && Executed(b, j, tx, d, run, r, end) && r.reverted
    ensures EnergyMoved(b, j, end, r.gasPayer, r.paid, r.reward) && SameUsers(b, j, end, tx, d)
    ensures b.books.SameApart(j, end, {r.gasPayer, b.beneficiary}, {EnergySlot(b)} + CreditSlots(b, tx, d))
  {
    hide MachineOk, b.books.codec.Ok, Executed, Charged, Cost, Returned, Reward, EnergyMoved, SameUsers, b.books.Add,
      b.books.Sub, b.books.SameApart;
    var bk := b.books;
    Sound(b);
    ReceiptIs(b, j, tx, d, run, r, end);
    EnergyOnly(b, tx, d, j, run, r.reward, end);
    UsersOnly(b, tx, d, j, run, r.reward, end);
    ApartOnly(b, tx, d, j, run, r.reward, end);
  }

  lemma EnergyOnly(b: Block, tx: Tx, d: Deal, j: Log, run: Ran, reward: nat, end: Log)
    requires b.books.codec.Ok() && run.leftOverGas <= tx.gas && Covered(tx, d) && run.log == Charged(b, j, tx, d)
    requires end == b.books.Add(Returned(b, tx, d, run), b.beneficiary, reward)
    ensures EnergyMoved(b, j, end, d.payer, Cost(d.price, tx.gas - run.leftOverGas), reward)
  {
    hide b.books.codec.Ok, Cost, Returned, b.books.Add, b.books.Sub, b.books.TotalsOf, b.books.Energy,
      b.books.SameApart, b.books.PlanOf, b.books.UserOf, b.books.UserCredit, Covered, CreditSlots, Drawn;
    var bk, j2 := b.books, Returned(b, tx, d, run);
    CostSplits(d.price, tx.gas, run.leftOverGas);
    bk.SubReads(j, d.payer, Cost(d.price, tx.gas));
    ReturnedReads(b, tx, d, run);
    bk.AddReads(j2, b.beneficiary, reward);
  }

  lemma UsersOnly(b: Block, tx: Tx, d: Deal, j: Log, run: Ran, reward: nat, end: Log)
    requires b.books.codec.Ok() && run.leftOverGas <= tx.gas && Covered(tx, d) && run.log == Charged(b, j, tx, d)
    requires end == b.books.Add(Returned(b, tx, d, run), b.beneficiary, reward)
    ensures SameUsers(b, j, end, tx, d)
  {
    hide b.books.codec.Ok, Cost, Returned, b.books.Add, b.books.Sub, b.books.TotalsOf, b.books.Energy,
      b.books.SameApart, b.books.PlanOf, b.books.UserOf, b.books.UserCredit, Covered, CreditSlots, Drawn;
    var bk, j2 := b.books, Returned(b, tx, d, run);
    bk.SubReads(j, d.payer, Cost(d.price, tx.gas));
    bk.CreditApart(j, run.log, {d.payer});
    ReturnedReads(b, tx, d, run);
    bk.AddReads(j2, b.beneficiary, reward);
    bk.CreditApart(j2, end, {b.beneficiary});
  }

  lemma ApartOnly(b: Block, tx: Tx, d: Deal, j: Log, run: Ran, reward: nat, end: Log)
    requires b.books.codec.Ok() && run.leftOverGas <= tx.gas && Covered(tx, d) && run.log == Charged(b, j, tx, d)
    requires end == b.books.Add(Returned(b, tx, d, run), b.beneficiary, reward)
    ensures b.books.SameApart(j, end, {d.payer, b.beneficiary}, {EnergySlot(b)} + CreditSlots(b, tx, d))
  {
    hide b.books.codec.Ok, Cost, Returned, b.books.Add, b.books.Sub, b.books.TotalsOf, b.books.Energy,
      b.books.SameApart, b.books.PlanOf, b.books.UserOf, b.books.UserCredit, Covered, CreditSlots, Drawn;
    var bk, j2, slots := b.books, Returned(b, tx, d, run), {EnergySlot(b)} + CreditSlots(b, tx, d);
    bk.SubReads(j, d.payer, Cost(d.price, tx.gas));
    ReturnedReads(b, tx, d, run);
    bk.AddReads(j2, b.beneficiary, reward);
    bk.SameApartTwice(j, run.log, j2, {d.payer}, {EnergySlot(b)}, {d.payer}, slots);
    bk.SameApartTwice(j, j2, end, {d.payer} + {d.payer}, {EnergySlot(b)} + slots, {b.beneficiary}, {EnergySlot(b)});
    assert {d.payer} + {d.payer} + {b.beneficiary} == {d.payer, b.beneficiary};
    assert {EnergySlot(b)} + slots + {EnergySlot(b)} == slots;
  }

  /** The credit that was drawn on drops by exactly what was paid, unless a clause lowered the plan below that. */
  lemma CreditDropsByPaid(b: Block, j: Log, tx: Tx, d: Deal, run: Ran, r: Receipt, end: Log, to: Address, credit: nat)
    requires MachineOk(b) && b.books.time > 0 && Executed(b, j, tx, d, run, r, end) && d.credit == Some((to, credit))
    ensures credit == b.books.UserCredit(j, to, tx.origin)
    ensures b.books.UserCredit(end, to, tx.origin) == credit - r.paid
            <==> b.books.PlanOf(run.log, to).credit >= credit - r.paid
    ensures r.reverted ==> b.books.UserCredit(end, to, tx.origin) == credit - r.paid
  {
    hide MachineOk, b.books.codec.Ok, Execute, Buy, AllClauses, Charged, Cost, Returned, Reward, Resolvable,
      b.books.Add, b.books.UserCredit, b.books.PlanOf;
    var bk := b.books;
    Sound(b);
    ReceiptIs(b, j, tx, d, run, r, end);
    CreditBefore(b, j, tx, d, to, credit);
    CreditAfter(b, tx, d, run, r.reward, end, to, credit);
  }

  lemma CreditBefore(b: Block, j: Log, tx: Tx, d: Deal, to: Address, credit: nat)
    requires b.books.codec.Ok() && Buy(b, j, tx) == Some(d) && d.credit == Some((to, credit))
    ensures credit == b.books.UserCredit(j, to, tx.origin) <= b.books.PlanOf(Charged(b, j, tx, d), to).credit
  {
    hide b.books.codec.Ok, Buy, Cost, Price, Prepaid, SomeonePays, b.books.Sub, b.books.TotalsOf, b.books.Energy,
      b.books.SameApart, b.books.CanPay, b.books.UserCredit, b.books.PlanOf, b.books.UserOf;
    var bk := b.books;
    BuyMeans(b, j, tx);
    bk.SubReads(j, d.payer, Cost(d.price, tx.gas));
    bk.CreditApart(j, Charged(b, j, tx, d), {d.payer});
    bk.CreditWithinPlan(j, to, tx.origin);
  }

  /** The credit after gas is returned and the reward is paid. */
  lemma CreditAfter(b: Block, tx: Tx, d: Deal, run: Ran, reward: nat, end: Log, to: Address, credit: nat)
    requires b.books.codec.Ok() && b.books.time > 0 && run.leftOverGas <= tx.gas && Covered(tx, d)
    requires end == b.books.Add(Returned(b, tx, d, run), b.beneficiary, reward) && d.credit == Some((to, credit))
    ensures var left, plan := credit - Cost(d.price, tx.gas - run.leftOverGas), b.books.PlanOf(run.log, to).credit;
            b.books.UserCredit(end, to, tx.origin) == if plan < left then plan else left
  {
    hide b.books.codec.Ok, Cost, b.books.Add, b.books.TotalsOf, b.books.Energy, b.books.SameApart, b.books.PlanOf,
      b.books.UserOf, b.books.UserCredit, b.books.SetUserCredit;
    var bk, j2, back := b.books, Returned(b, tx, d, run), Cost(d.price, run.leftOverGas);
    CostSplits(d.price, tx.gas, run.leftOverGas);
    var j1 := bk.Add(run.log, d.payer, back);
    bk.AddReads(run.log, d.payer, back);
    bk.CreditApart(run.log, j1, {d.payer});
    bk.CreditReads(j1, to, tx.origin, credit - Cost(d.price, tx.gas - run.leftOverGas));
    bk.AddReads(j2, b.beneficiary, reward);
    bk.CreditApart(j2, end, {b.beneficiary});
  }

  // ---- a plan lowered on the way ----

  function Ones(n: nat): Bytes { seq(n, _ => 1) }

  function LeadingOnes(s: Bytes): nat { if s != [] && s[0] == 1 then 1 + LeadingOnes(s[1..]) else 0 }

  lemma {:induction false} LeadingOnesOf(n: nat, rest: Bytes)
    ensures LeadingOnes(Ones(n) + [0] + rest) == n
  {
    if n > 0 {
      assert (Ones(n) + [0] + rest)[1..] == Ones(n - 1) + [0] + rest;
      LeadingOnesOf(n - 1, rest);
    }
  }

  function Pair(a: nat, b: nat): Bytes { Ones(a) + [0] + (Ones(b) + [0] + []) }

  function Second(s: Bytes): nat { if LeadingOnes(s) < |s| then LeadingOnes(s[LeadingOnes(s) + 1..]) else 0 }

  lemma PairReads(a: nat, b: nat)
    ensures LeadingOnes(Pair(a, b)) == a && Second(Pair(a, b)) == b && Pair(a, b) != []
  {
    LeadingOnesOf(a, Ones(b) + [0] + []);
    LeadingOnesOf(b, []);
    assert Pair(a, b)[a + 1..] == Ones(b) + [0] + [];
  }

  function Joined(a: Bytes, u: Bytes): Bytes { Ones(|a|) + [0] + (a + u) }

  lemma JoinedOnce(a: Bytes, u: Bytes, a': Bytes, u': Bytes)
    requires Joined(a, u) == Joined(a', u')
    ensures a == a' && u == u'
  {
    LeadingOnesOf(|a|, a + u);
    LeadingOnesOf(|a'|, a' + u');
    assert Joined(a, u)[|a| + 1..] == a + u && Joined(a', u')[|a| + 1..] == a' + u';
    assert a == (a + u)[..|a|] && u == (a + u)[|a|..] && a' == (a' + u')[..|a|] && u' == (a' + u')[|a|..];
  }

  /** Books in unary. */
  function UnaryCodec(): Codec {
    Codec([4], [], [5], a => [2] + a, (a, u) => Joined(a, u),
          (t: Totals) => Pair(t.add, t.sub), s => Totals(LeadingOnes(s), Second(s)),
          (p: Plan) => Pair(p.credit, p.recoveryRate), s => Plan(LeadingOnes(s), Second(s)),
          (u: User) => Pair(u.usedCredit, u.blockTime), s => User(LeadingOnes(s), Second(s)))
  }

  lemma UnaryCodecOk()
    ensures UnaryCodec().Ok()
  {
    hide Pair, LeadingOnes, Second;
    var c := UnaryCodec();
    forall t: Totals ensures c.encTotals(t) != [] && c.decTotals(c.encTotals(t)) == t { PairReads(t.add, t.sub); }
    forall p: Plan ensures c.encPlan(p) != [] && c.decPlan(c.encPlan(p)) == p { PairReads(p.credit, p.recoveryRate); }
    forall u: User ensures c.encUser(u) != [] && c.decUser(c.encUser(u)) == u { PairReads(u.usedCredit, u.blockTime); }
    forall a, u, a', u' | c.userKey(a, u) == c.userKey(a', u') ensures a == a' && u == u' { JoinedOnce(a, u, a', u'); }
    forall a, u, a' ensures c.userKey(a, u) != c.planKey(a') { assert c.userKey(a, u)[0] != c.planKey(a')[0]; }
  }

  const CONTRACT: Address := [1]
  const ORIGIN: Address := [2]

  /** A machine that takes the contract's plan away and uses up its gas. */
  function LoweringBlock(h: Keccak, c: Codec): Block {
    var ops := [Put(WriteStorage(c.protoAddr, c.planKey(CONTRACT), c.encPlan(NO_PLAN)))];
    Block(Books(World(map[], map[]), h, c, 1), [3], _ => 1, _ => 0, (_, _) => [], (_, _, _) => false,
          _ => true, _ => Some(0), (_, _) => Exec(ops, Some(Output(0, 0, false, []))))
  }

  const CALLING := Tx(true, ORIGIN, None, 21_000, 21_000, 0, [Clause(Some(CONTRACT), [], 0)])

  /** The contract gives its user a credit of 100000 and has the energy. */
  function WithCredit(h: Keccak, c: Codec): Log {
    var w := World(map[], map[]);
    var j1 := Written(w, h, [], WriteStorage(c.protoAddr, c.planKey(CONTRACT), c.encPlan(Plan(100_000, 0))));
    var j2 := Written(w, h, j1, WriteStorage(c.protoAddr, c.userKey(CONTRACT, ORIGIN), c.encUser(User(0, 1))));
    Written(w, h, j2, WriteEnergy(CONTRACT, 100_000, 1))
  }

  lemma WithCreditReads(h: Keccak, c: Codec)
    requires c.Ok()
    ensures var bk, j := LoweringBlock(h, c).books, WithCredit(h, c);
            && bk.UserOf(j, CONTRACT, ORIGIN) == User(0, 1) && bk.PlanOf(j, CONTRACT) == Plan(100_000, 0)
            && bk.Energy(j, CONTRACT) == 100_000
  {
    var bk := LoweringBlock(h, c).books;
    hide RawOf, Acct, CodeOf, CalcEnergy, Written;
    var j1 := Written(bk.w, h, [], WriteStorage(c.protoAddr, c.planKey(CONTRACT), c.encPlan(Plan(100_000, 0))));
    var j2 := Written(bk.w, h, j1, WriteStorage(c.protoAddr, c.userKey(CONTRACT, ORIGIN), c.encUser(User(0, 1))));
    var j3 := Written(bk.w, h, j2, WriteEnergy(CONTRACT, 100_000, 1));
    bk.SlotReads([], j1, c.protoAddr, c.planKey(CONTRACT), c.encPlan(Plan(100_000, 0)));
    bk.SlotReads(j1, j2, c.protoAddr, c.userKey(CONTRACT, ORIGIN), c.encUser(User(0, 1)));
    bk.EnergyReads(j2, j3, CONTRACT, 100_000);
  }

  lemma LoweringIsDisciplined(h: Keccak, c: Codec)
    requires c.Ok()
    ensures MachineOk(LoweringBlock(h, c))
  {
    var b := LoweringBlock(h, c);
    forall j: Log, call: Call ensures Disciplined(b.books, j, call, b.exec(j, call)) {
      ActedOne(b.books.w, h, j, WriteStorage(c.protoAddr, c.planKey(CONTRACT), c.encPlan(NO_PLAN)));
    }
  }

  lemma ContractPays(b: Block, j: Log, tx: Tx, to: Address, credit: nat)
    requires tx.delegator.None? && Common(tx.clauses, to)
    requires credit == b.books.UserCredit(j, to, tx.origin) >= Prepaid(b, j, tx)
    requires !b.isSponsor(j, to, b.sponsorOf(j, to)) && b.books.CanPay(j, to, Prepaid(b, j, tx))
    ensures Buy(b, j, tx) == Some(Deal(to, Some((to, credit)), b.baseGasPrice(j), Price(b, j, tx)))
  {
    hide Prepaid, Price, b.books.UserCredit, b.books.CanPay;
    OneCommon(tx.clauses, to);
  }

  /** At a price of 1 the contract buys the gas on the credit it gives its user. */
  lemma LoweringDeal(h: Keccak, c: Codec, b: Block, j: Log, tx: Tx)
    requires c.Ok() && b == LoweringBlock(h, c) && j == WithCredit(h, c) && tx == CALLING
    ensures Buy(b, j, tx) == Some(Deal(CONTRACT, Some((CONTRACT, 100_000)), 1, 1))
  {
    hide WithCredit, RawOf, Acct, Buy, b.books.UserOf, b.books.PlanOf, b.books.Energy;
    WithCreditReads(h, c);
    ContractPays(b, j, tx, CONTRACT, 100_000);
  }

  /** The one clause goes through, and the plan is gone. */
  lemma LoweringRun(h: Keccak, c: Codec, b: Block, j: Log, tx: Tx, d: Deal)
    requires c.Ok() && b == LoweringBlock(h, c) && tx == CALLING && MachineOk(b)
    ensures var p := AllClauses(b, j, tx, d);
            p.Going? && !p.ran.reverted && b.books.PlanOf(p.ran.log, CONTRACT) == NO_PLAN
  {
    hide MachineOk, RawOf, Acct, Written, Charged;
    var from, x := Charged(b, j, tx, d), WriteStorage(c.protoAddr, c.planKey(CONTRACT), c.encPlan(NO_PLAN));
    var end := Written(b.books.w, h, from, x);
    ActedOne(b.books.w, h, from, x);
    b.books.SlotReads(from, end, c.protoAddr, c.planKey(CONTRACT), c.encPlan(NO_PLAN));
    var first := Ran(from, 0, [], false);
    assert RunClauses(b, tx, d.payer, from, 0) == Going(first);
    assert b.exec(from, Call(tx, d.payer, 0, 0)) == Exec([Put(x)], Some(Output(0, 0, false, [])));
    assert RunClause(b, tx, d.payer, from, 0, first) == Going(Ran(end, 0, [] + [[]], false));
  }

  /** A credit that does not drop by what was paid: the clause lowers the plan that the credit comes from. */
  lemma CreditNeedNotDrop(h: Keccak) returns (b: Block, j: Log, tx: Tx, d: Deal, run: Ran, r: Receipt, end: Log)
    ensures MachineOk(b) && b.books.time > 0 && Executed(b, j, tx, d, run, r, end)
            && d.credit == Some((CONTRACT, 100_000))
    ensures b.books.UserCredit(end, CONTRACT, tx.origin) != 100_000 - r.paid
  {
    hide MachineOk, Buy, AllClauses, Execute, WithCredit, RawOf, Acct, Charged, Settled, Returned, Reward,
      UnaryCodec, b.books.codec.Ok, b.books.PlanOf, b.books.UserCredit, b.books.Add;
    var c := UnaryCodec();
    UnaryCodecOk();
    b, j, tx := LoweringBlock(h, c), WithCredit(h, c), CALLING;
    LoweringIsDisciplined(h, c);
    LoweringDeal(h, c, b, j, tx);
    LoweringRun(h, c, b, j, tx, Buy(b, j, tx).value);
    assert tx.clauses[..0] == [] && SumOfValues(tx.clauses) == 0;
    ReceiptIff(b, j, tx);
    d, run, r, end := WithReceipt(b, j, tx);
    ReceiptIs(b, j, tx, d, run, r, end);
    CreditDropsByPaid(b, j, tx, d, run, r, end, CONTRACT, 100_000);
  }

  // ---- errors ----

  /** Nothing that was written is taken back. */
  lemma ExecuteGrows(b: Block, j: Log, tx: Tx)
    requires MachineOk(b)
    ensures j <= Execute(b, j, tx).log
    ensures Resolvable(tx) && SomeonePays(b, j, tx) && Prepaid(b, j, tx) > 0 ==> |Execute(b, j, tx).log| > |j|
  {
    hide MachineOk, b.books.codec.Ok, Buy, RunClauses, Cost, Price, Reward, Resolvable, SomeonePays, Settled,
      b.books.Add, b.books.Sub, b.books.CanPay, b.books.UserCredit;
    Sound(b);
    BuyMeans(b, j, tx);
    if Resolvable(tx) && Buy(b, j, tx).Some? {
      ResolvedGas(tx);
      var d := Buy(b, j, tx).value;
      b.books.BooksGrow(j, d.payer, Cost(d.price, tx.gas));
      RanIs(b, tx, d.payer, Charged(b, j, tx, d), |tx.clauses|);
      BuyCovers(b, j, tx);
      var p := AllClauses(b, j, tx, d);
      if b.hasContext(tx) && p.Going? { SettledGrows(b, tx, d, p.ran); }
    }
  }

  lemma SettledGrows(b: Block, tx: Tx, d: Deal, r: Ran)
    requires r.leftOverGas <= tx.gas && Covered(tx, d)
    ensures r.log <= Settled(b, tx, d, r).log
  {
    hide Cost, Reward, Returned, b.books.Add;
    ReturnedGrows(b, tx, d, r);
    if b.workGas(tx).Some? {
      var j2 := Returned(b, tx, d, r);
      b.books.BooksGrow(j2, b.beneficiary, Reward(b, tx, d, b.workGas(tx).value, j2, tx.gas - r.leftOverGas));
    }
  }

  lemma ReturnedGrows(b: Block, tx: Tx, d: Deal, r: Ran)
    requires r.leftOverGas <= tx.gas && Covered(tx, d)
    ensures r.log <= Returned(b, tx, d, r)
  {
    hide Cost, b.books.Add, b.books.SetUserCredit;
    CostSplits(d.price, tx.gas, r.leftOverGas);
    var j1 := b.books.Add(r.log, d.payer, Cost(d.price, r.leftOverGas));
    b.books.BooksGrow(r.log, d.payer, Cost(d.price, r.leftOverGas));
    if d.credit.Some? {
      b.books.CreditGrows(j1, d.credit.value.0, tx.origin, d.credit.value.1 - Cost(d.price, tx.gas - r.leftOverGas));
    }
  }

  /**
   An error leaves the state as it was exactly when it comes before the purchase; afterwards the purchase, and
   what the clauses wrote so far, stay until the caller reverts. Gas that costs nothing is bought without a trace.
   */
  lemma ErrorLeavesStateIff(b: Block, j: Log, tx: Tx)
    requires MachineOk(b) && Execute(b, j, tx).receipt.None?
    ensures Prepaid(b, j, tx) > 0 ==> (Execute(b, j, tx).log == j <==> !Resolvable(tx) || !SomeonePays(b, j, tx))
    ensures Prepaid(b, j, tx) == 0 && !b.hasContext(tx) ==> Execute(b, j, tx).log == j
  {
    hide MachineOk, b.books.codec.Ok, Buy, RunClauses, Cost, Price, Resolvable, SomeonePays, Settled,
      b.books.Sub, b.books.CanPay, b.books.UserCredit;
    Sound(b);
    BuyMeans(b, j, tx);
    ExecuteGrows(b, j, tx);
    if Buy(b, j, tx).Some? { b.books.BooksGrow(j, Buy(b, j, tx).value.payer, Prepaid(b, j, tx)); }
  }

  /** A transaction whose block reference cannot be looked up is an error, and its payer is out of all the gas. */
  lemma ErrorAfterPurchase(b: Block, j: Log, tx: Tx)
    requires MachineOk(b) && Resolvable(tx) && SomeonePays(b, j, tx) && !b.hasContext(tx)
    ensures Execute(b, j, tx).receipt.None? && Buy(b, j, tx).Some?
    ensures forall x: Address :: b.books.Energy(Execute(b, j, tx).log, x) ==
              b.books.Energy(j, x) - if x == Buy(b, j, tx).value.payer then Prepaid(b, j, tx) else 0
  {
    hide MachineOk, b.books.codec.Ok, Buy, RunClauses, Cost, Price, Resolvable, SomeonePays, Settled,
      b.books.Sub, b.books.CanPay, b.books.UserCredit, b.books.Energy;
    Sound(b);
    BuyMeans(b, j, tx);
    b.books.SubReads(j, Buy(b, j, tx).value.payer, Prepaid(b, j, tx));
  }
}
