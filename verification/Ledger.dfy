/**
 The books of energy (builtin/energy, state/account.go) and of user credit (builtin/prototype), kept in the
 accounts and the storage of two builtin contracts.
 */
module Ledger {
  import opened ByteStrings
  import opened StackedMap
  import opened StateJournal
  import opened State
  import opened StateDb

  datatype Totals = Totals(add: nat, sub: nat)

  datatype Plan = Plan(credit: nat, recoveryRate: nat)

  datatype User = User(usedCredit: nat, blockTime: nat)

  const NO_USER := User(0, 0)
  const NO_PLAN := Plan(0, 0)

  const ENERGY_GROWTH_RATE := 5_000_000_000
  const E18 := 1_000_000_000_000_000_000

  /** Where the builtin contracts keep their books, and in which encoding. */
  datatype Codec = Codec(
    energyAddr: Address, totalKey: Bytes, protoAddr: Address, planKey: Address -> Bytes,
    userKey: (Address, Address) -> Bytes,
    encTotals: Totals -> Raw, decTotals: Raw -> Totals, encPlan: Plan -> Raw, decPlan: Raw -> Plan,
    encUser: User -> Raw, decUser: Raw -> User)
  {
    /** Encodings are read back, and keys do not collide. */
    ghost predicate Ok() {
      && energyAddr != protoAddr
      && (forall t: Totals :: encTotals(t) != [] && decTotals(encTotals(t)) == t)
      && (forall p: Plan :: encPlan(p) != [] && decPlan(encPlan(p)) == p)
      && (forall u: User :: encUser(u) != [] && decUser(encUser(u)) == u)
      && (forall a, u, a', u' :: userKey(a, u) == userKey(a', u') ==> a == a' && u == u')
      && (forall a, u, a' :: userKey(a, u) != planKey(a'))
    }
  }

  /** CalcEnergy: energy grows with the balance from the time the account was last touched. */
  function CalcEnergy(a: Account, time: nat): int {
    if a.blockTime == 0 || a.balance == 0 || time <= a.blockTime then a.energy
    else a.energy + (time - a.blockTime) * a.balance * ENERGY_GROWTH_RATE / E18
  }

  /** For every second and every 10^18 of balance energy grows by 5 * 10^9, rounded down once at the end. */
  lemma EnergyGrows(a: Account, time: nat)
    ensures a.blockTime == 0 || time <= a.blockTime ==> CalcEnergy(a, time) == a.energy
    ensures 0 < a.blockTime < time ==>
              var g := CalcEnergy(a, time) - a.energy;
              1_000_000_000_000_000_000 * g <= (time - a.blockTime) * a.balance * 5_000_000_000
              < 1_000_000_000_000_000_000 * (g + 1)
  {
    if 0 < a.blockTime < time && a.balance != 0 {
      Floor((time - a.blockTime) * a.balance * ENERGY_GROWTH_RATE, E18);
    }
  }

  lemma Floor(x: int, n: nat)
    requires n > 0
    ensures n * (x / n) <= x < n * (x / n + 1)
  {
    assert x == n * (x / n) + x % n;
  }

  /** What is left of a credit that recovers over time. */
  function CreditLeft(u: User, plan: Plan, time: nat): nat {
    if u.usedCredit == 0 then plan.credit
    else
      var used := if time <= u.blockTime then u.usedCredit else u.usedCredit - (time - u.blockTime) * plan.recoveryRate;
      if used <= 0 then plan.credit else if used >= plan.credit then 0 else plan.credit - used
  }

  /** Of the used credit what has recovered counts no more; the rest is missing from the plan's credit. */
  lemma CreditRecovers(u: User, plan: Plan, time: nat)
    ensures var elapsed := if time <= u.blockTime then 0 else time - u.blockTime;
            var recovered, left := elapsed * plan.recoveryRate, CreditLeft(u, plan, time);
            && (recovered >= u.usedCredit ==> left == plan.credit)
            && (plan.credit + recovered <= u.usedCredit && u.usedCredit > recovered ==> left == 0)
            && (recovered < u.usedCredit < plan.credit + recovered ==> left + u.usedCredit == plan.credit + recovered)
  {
    var elapsed := if time <= u.blockTime then 0 else time - u.blockTime;
    assert elapsed == 0 ==> elapsed * plan.recoveryRate == 0;
  }

  /** The books of a run that started from a committed state, at a block time. */
  datatype Books = Books(w: World, h: Keccak, codec: Codec, time: nat) {

    function Energy(j: Log, a: Address): int { CalcEnergy(Acct(w, j, a), time) }

    function TotalsOf(j: Log): Totals {
      var raw := RawOf(w, j, codec.energyAddr, codec.totalKey);
      if raw == [] then Totals(0, 0) else codec.decTotals(raw)
    }

    function Burned(j: Log): int { TotalsOf(j).sub - TotalsOf(j).add }

    /** The totals and the energy of an account are set. */
    function Booked(j: Log, t: Totals, a: Address, energy: int): Log {
      var j1 := Written(w, h, j, WriteStorage(codec.energyAddr, codec.totalKey, codec.encTotals(t)));
      Written(w, h, j1, WriteEnergy(a, energy, time))
    }

    function Add(j: Log, a: Address, amount: nat): Log {
      if amount == 0 then j
      else Booked(j, TotalsOf(j).(add := TotalsOf(j).add + amount), a, Energy(j, a) + amount)
    }

    predicate CanPay(j: Log, a: Address, amount: nat) { amount == 0 || Energy(j, a) >= amount }

    function Sub(j: Log, a: Address, amount: nat): Log {
      if amount == 0 then j
      else Booked(j, TotalsOf(j).(sub := TotalsOf(j).sub + amount), a, Energy(j, a) - amount)
    }

    function PlanOf(j: Log, to: Address): Plan {
      var raw := RawOf(w, j, codec.protoAddr, codec.planKey(to));
      if raw == [] then NO_PLAN else codec.decPlan(raw)
    }

    function UserOf(j: Log, to: Address, user: Address): User {
      var raw := RawOf(w, j, codec.protoAddr, codec.userKey(to, user));
      if raw == [] then NO_USER else codec.decUser(raw)
    }

    function UserCredit(j: Log, to: Address, user: Address): nat {
      if UserOf(j, to, user) == NO_USER then 0 else CreditLeft(UserOf(j, to, user), PlanOf(j, to), time)
    }

    function SetUserCredit(j: Log, to: Address, user: Address, credit: nat): Log {
      var plan := PlanOf(j, to).credit;
      var u := User(if plan < credit then 0 else plan - credit, time);
      var raw := if u == NO_USER then [] else codec.encUser(u);
      Written(w, h, j, WriteStorage(codec.protoAddr, codec.userKey(to, user), raw))
    }

    /** Only the energy of some accounts and some storage may differ. */
    ghost predicate SameApart(j: Log, j': Log, touched: set<Address>, slots: set<(Address, Bytes)>) {
      && (forall x: Address :: x !in touched ==> Acct(w, j', x) == Acct(w, j, x))
      && (forall x: Address :: SameAccount(Acct(w, j, x), Acct(w, j', x)) && CodeOf(w, j', x) == CodeOf(w, j, x))
      && (forall x: Address, k: Bytes :: (x, k) !in slots ==> RawOf(w, j', x, k) == RawOf(w, j, x, k))
    }

    // ---- what the operations do to what is read ----

    lemma SameApartTwice(j: Log, j': Log, j'': Log, a: set<Address>, s: set<(Address, Bytes)>,
                         a': set<Address>, s': set<(Address, Bytes)>)
      requires SameApart(j, j', a, s) && SameApart(j', j'', a', s')
      ensures SameApart(j, j'', a + a', s + s')
    {
      forall x: Address ensures SameAccount(Acct(w, j, x), Acct(w, j'', x)) && CodeOf(w, j'', x) == CodeOf(w, j, x) {
        assert SameAccount(Acct(w, j, x), Acct(w, j', x)) && SameAccount(Acct(w, j', x), Acct(w, j'', x));
      }
    }

    lemma SlotReads(j: Log, j': Log, a: Address, k: Bytes, r: Raw)
      requires j' == Written(w, h, j, WriteStorage(a, k, r))
      ensures SameApart(j, j', {}, {(a, k)}) && RawOf(w, j', a, k) == r
    {
      hide RawOf, Acct, CodeOf, Barrier;
      forall x: Address ensures Acct(w, j', x) == Acct(w, j, x) && CodeOf(w, j', x) == CodeOf(w, j, x) {
        WriteReads(w, j, a, k, r, x, k);
      }
      forall x: Address, y: Bytes ensures RawOf(w, j', x, y) == if x == a && y == k then r else RawOf(w, j, x, y) {
        WriteReads(w, j, a, k, r, x, y);
      }
    }

    lemma EnergyReads(j: Log, j': Log, a: Address, energy: int)
      requires j' == Written(w, h, j, WriteEnergy(a, energy, time))
      ensures SameApart(j, j', {a}, {})
              && (forall x: Address :: Energy(j', x) == if x == a then energy else Energy(j, x))
    {
      hide RawOf, Acct, CodeOf;
      var acct := Acct(w, j, a).(energy := energy, blockTime := time);
      forall x: Address
        ensures Acct(w, j', x) == (if x == a then acct else Acct(w, j, x)) && CodeOf(w, j', x) == CodeOf(w, j, x)
      {
        SetterReads(w, j, a, acct, x, []);
      }
      forall x: Address, y: Bytes ensures RawOf(w, j', x, y) == RawOf(w, j, x, y) {
        SetterReads(w, j, a, acct, x, y);
      }
    }

    lemma SameEnergy(j: Log, j': Log, slots: set<(Address, Bytes)>)
      requires SameApart(j, j', {}, slots)
      ensures forall x: Address :: Energy(j', x) == Energy(j, x)
    {
    }

    lemma BookedReads(j: Log, t: Totals, a: Address, energy: int)
      requires codec.Ok()
      ensures var j' := Booked(j, t, a, energy);
              && SameApart(j, j', {a}, {(codec.energyAddr, codec.totalKey)}) && TotalsOf(j') == t
              && (forall x: Address :: Energy(j', x) == if x == a then energy else Energy(j, x))
    {
      var slot := (codec.energyAddr, codec.totalKey);
      var j1 := Written(w, h, j, WriteStorage(slot.0, slot.1, codec.encTotals(t)));
      var j2 := Written(w, h, j1, WriteEnergy(a, energy, time));
      hide RawOf, Acct, CodeOf, CalcEnergy;
      SlotReads(j, j1, slot.0, slot.1, codec.encTotals(t));
      EnergyReads(j1, j2, a, energy);
      SameEnergy(j, j1, {slot});
      SameApartTwice(j, j1, j2, {}, {slot}, {a}, {});
      assert {} + {a} == {a} && {slot} + {} == {slot};
    }

    /** Energy and total rise by the amount, and nothing else changes. */
    lemma AddReads(j: Log, a: Address, amount: nat)
      requires codec.Ok()
      ensures var j' := Add(j, a, amount);
              && SameApart(j, j', {a}, {(codec.energyAddr, codec.totalKey)})
              && TotalsOf(j') == TotalsOf(j).(add := TotalsOf(j).add + amount)
              && (forall x: Address :: Energy(j', x) == Energy(j, x) + if x == a then amount else 0)
    {
      hide RawOf, Acct, CodeOf, CalcEnergy, Booked, TotalsOf;
      BookedReads(j, TotalsOf(j).(add := TotalsOf(j).add + amount), a, Energy(j, a) + amount);
    }

    lemma SubReads(j: Log, a: Address, amount: nat)
      requires codec.Ok()
      ensures var j' := Sub(j, a, amount);
              && SameApart(j, j', {a}, {(codec.energyAddr, codec.totalKey)})
              && TotalsOf(j') == TotalsOf(j).(sub := TotalsOf(j).sub + amount)
              && (forall x: Address :: Energy(j', x) == Energy(j, x) - if x == a then amount else 0)
    {
      hide RawOf, Acct, CodeOf, CalcEnergy, Booked, TotalsOf;
      BookedReads(j, TotalsOf(j).(sub := TotalsOf(j).sub + amount), a, Energy(j, a) - amount);
    }

    /** An account can pay exactly what leaves it no debt. */
    lemma CanPayIff(j: Log, a: Address, amount: nat)
      requires codec.Ok()
      ensures CanPay(j, a, amount) <==> amount == 0 || Energy(Sub(j, a, amount), a) >= 0
    {
      hide CalcEnergy, Acct, Sub, TotalsOf, SameApart;
      SubReads(j, a, amount);
    }

    /** Bookings only add to the journal. */
    lemma BooksGrow(j: Log, a: Address, amount: nat)
      ensures j <= Add(j, a, amount) && j <= Sub(j, a, amount)
      ensures |Add(j, a, amount)| == |Sub(j, a, amount)| == |j| + if amount == 0 then 0 else 2
    {
      hide TotalsOf, Energy, Acct, Barrier;
    }

    lemma CreditGrows(j: Log, to: Address, user: Address, credit: nat)
      ensures j <= SetUserCredit(j, to, user, credit)
    {
      hide PlanOf, Barrier;
    }

    /** The books of credit are not those of energy. */
    lemma CreditApart(j: Log, j': Log, touched: set<Address>)
      requires codec.Ok() && SameApart(j, j', touched, {(codec.energyAddr, codec.totalKey)})
      ensures forall to: Address :: PlanOf(j', to) == PlanOf(j, to)
      ensures forall to: Address, user: Address :: UserOf(j', to, user) == UserOf(j, to, user)
      ensures forall to: Address, user: Address :: UserCredit(j', to, user) == UserCredit(j, to, user)
    {
      hide RawOf, Acct, CodeOf, CreditLeft;
    }

    /** A credit that was set is read back up to the plan's credit; no other credit, no plan and no energy changes. */
    lemma CreditReads(j: Log, to: Address, user: Address, credit: nat)
      requires codec.Ok()
      ensures var j', plan := SetUserCredit(j, to, user, credit), PlanOf(j, to).credit;
              && SameApart(j, j', {}, {(codec.protoAddr, codec.userKey(to, user))})
              && (time > 0 ==> UserCredit(j', to, user) == if plan < credit then plan else credit)
              && TotalsOf(j') == TotalsOf(j)
              && (forall t: Address, u: Address :: (t, u) != (to, user) ==> UserOf(j', t, u) == UserOf(j, t, u))
              && (forall t: Address :: PlanOf(j', t) == PlanOf(j, t))
    {
      hide RawOf, Acct, CodeOf, CalcEnergy;
      var plan := PlanOf(j, to).credit;
      var u := User(if plan < credit then 0 else plan - credit, time);
      SlotReads(j, SetUserCredit(j, to, user, credit), codec.protoAddr, codec.userKey(to, user),
                if u == NO_USER then [] else codec.encUser(u));
    }

    /** Nobody has credit who is no user; a user who has used nothing has all the plan gives. */
    lemma CreditOfUsers(j: Log, to: Address, user: Address, since: nat)
      requires codec.Ok()
      ensures var raw := RawOf(w, j, codec.protoAddr, codec.userKey(to, user));
              && (raw == [] ==> UserCredit(j, to, user) == 0)
              && (since > 0 && raw == codec.encUser(User(0, since)) ==> UserCredit(j, to, user) == PlanOf(j, to).credit)
    {
      hide RawOf;
    }

    lemma CreditWithinPlan(j: Log, to: Address, user: Address)
      ensures UserCredit(j, to, user) <= PlanOf(j, to).credit
    {
      hide RawOf;
    }
  }

  /** All but the energy. */
  predicate SameAccount(a: Account, b: Account) {
    && a.balance == b.balance && a.master == b.master && a.codeHash == b.codeHash && a.storageRoot == b.storageRoot
  }

  // ---- the same on the state ----

  ghost predicate Keeps(st: State, bk: Books)
    reads st.sm
  {
    st.Valid() && st.w == bk.w && st.h == bk.h
  }

  method GetEnergy(st: State, bk: Books, a: Address) returns (energy: int)
    requires Keeps(st, bk)
    ensures energy == bk.Energy(st.J(), a)
  {
    var acct := st.GetAccount(a);
    energy := CalcEnergy(acct, bk.time);
  }

  method GetTotals(st: State, bk: Books) returns (t: Totals)
    requires Keeps(st, bk)
    ensures t == bk.TotalsOf(st.J())
  {
    var raw := st.GetRawStorage(bk.codec.energyAddr, bk.codec.totalKey);
    t := if raw == [] then Totals(0, 0) else bk.codec.decTotals(raw);
  }

  /** setTotalAddSub and SetEnergy */
  method Book(st: State, bk: Books, t: Totals, a: Address, energy: int)
    requires Keeps(st, bk)
    modifies st.sm
    ensures Keeps(st, bk) && Above(old(st.sm.mapStack), st.sm.mapStack)
    ensures st.J() == bk.Booked(old(st.J()), t, a, energy)
  {
    hide Above, StackOk, Journal, Acct, Barrier, LevelsOk, IndexOk;
    Perform(st, WriteStorage(bk.codec.energyAddr, bk.codec.totalKey, bk.codec.encTotals(t)));
    ghost var s := st.sm.mapStack;
    Perform(st, WriteEnergy(a, energy, bk.time));
    AboveTwice(old(st.sm.mapStack), s, st.sm.mapStack);
  }

  method AddEnergy(st: State, bk: Books, a: Address, amount: nat)
    requires Keeps(st, bk)
    modifies st.sm
    ensures Keeps(st, bk) && Above(old(st.sm.mapStack), st.sm.mapStack) && st.J() == bk.Add(old(st.J()), a, amount)
  {
    hide Above, CalcEnergy, RawOf, Acct, bk.Booked;
    AboveItself(st.sm.mapStack);
    if amount == 0 { return; }
    var eng := GetEnergy(st, bk, a);
    var total := GetTotals(st, bk);
    Book(st, bk, total.(add := total.add + amount), a, eng + amount);
  }

  /** False if there is not enough energy. */
  method SubEnergy(st: State, bk: Books, a: Address, amount: nat) returns (ok: bool)
    requires Keeps(st, bk)
    modifies st.sm
    ensures Keeps(st, bk) && Above(old(st.sm.mapStack), st.sm.mapStack)
    ensures ok == bk.CanPay(old(st.J()), a, amount)
    ensures st.J() == if ok then bk.Sub(old(st.J()), a, amount) else old(st.J())
  {
    hide Above, CalcEnergy, RawOf, Acct, bk.Booked;
    AboveItself(st.sm.mapStack);
    if amount == 0 { return true; }
    var eng := GetEnergy(st, bk, a);
    if eng < amount { return false; }
    var total := GetTotals(st, bk);
    Book(st, bk, total.(sub := total.sub + amount), a, eng - amount);
    ok := true;
  }

  method GetCredit(st: State, bk: Books, to: Address, user: Address) returns (credit: nat)
    requires Keeps(st, bk)
    ensures credit == bk.UserCredit(st.J(), to, user)
  {
    hide RawOf, Acct, CreditLeft;
    var raw := st.GetRawStorage(bk.codec.protoAddr, bk.codec.userKey(to, user));
    var u := if raw == [] then NO_USER else bk.codec.decUser(raw);
    if u == NO_USER { return 0; }
    var raw' := st.GetRawStorage(bk.codec.protoAddr, bk.codec.planKey(to));
    var plan := if raw' == [] then NO_PLAN else bk.codec.decPlan(raw');
    credit := CreditLeft(u, plan, bk.time);
  }

  method SetCredit(st: State, bk: Books, to: Address, user: Address, credit: nat)
    requires Keeps(st, bk)
    modifies st.sm
    ensures Keeps(st, bk) && Above(old(st.sm.mapStack), st.sm.mapStack)
    ensures st.J() == bk.SetUserCredit(old(st.J()), to, user, credit)
  {
    hide Above, RawOf, Acct, StackOk, Journal, Barrier;
    var raw := st.GetRawStorage(bk.codec.protoAddr, bk.codec.planKey(to));
    var plan := if raw == [] then NO_PLAN else bk.codec.decPlan(raw);
    var used := plan.credit - credit;
    var u := User(if used < 0 then 0 else used, bk.time);
    var encoded := if u == NO_USER then [] else bk.codec.encUser(u);
    Perform(st, WriteStorage(bk.codec.protoAddr, bk.codec.userKey(to, user), encoded));
  }
}
