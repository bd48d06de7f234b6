/** Whose turn it is to produce a block (poa/sched_v2.go). */
module Scheduler {
  import opened ByteStrings

  type Address = Bytes

  datatype Proposer = Proposer(address: Address, active: bool)

  const T := 10     // block interval in seconds

  // ---- the order of proposers ----

  /** The hash that orders a proposer for the block at hand: of seed, parent number and address. */
  type Order = Address -> Bytes

  ghost predicate Sorted(h: Order, s: seq<Address>) {
    forall i, j :: 0 <= i < j < |s| ==> !Less(h(s[j]), h(s[i]))
  }

  function Insert(h: Order, x: Address, s: seq<Address>): (r: seq<Address>)
    ensures multiset(r) == multiset(s) + multiset{x}
  {
    if s == [] || !Less(h(s[0]), h(x)) then [x] + s
    else
      var r := [s[0]] + Insert(h, x, s[1..]);
      assert s == [s[0]] + s[1..];
      r
  }

  /** Sorting, by hash. */
  function Sort(h: Order, s: seq<Address>): (r: seq<Address>)
    ensures multiset(r) == multiset(s)
  {
    if s == [] then []
    else
      assert s == [s[0]] + s[1..];
      Insert(h, s[0], Sort(h, s[1..]))
  }

  lemma {:induction false} InsertSorted(h: Order, x: Address, s: seq<Address>)
    requires Sorted(h, s)
    ensures Sorted(h, Insert(h, x, s))
  {
    var r := Insert(h, x, s);
    if s == [] {
    } else if !Less(h(s[0]), h(x)) {
      forall j | 0 < j < |r| ensures !Less(h(r[j]), h(x)) {
        LessTrichotomy(h(s[0]), h(s[0]));
        LessTransitive(h(x), h(s[0]), h(r[j]));
      }
    } else {
      InsertSorted(h, x, s[1..]);
      LessTrichotomy(h(s[0]), h(x));
      forall j | 0 < j < |r| ensures !Less(h(r[j]), h(s[0])) {
        assert r[j] in multiset(Insert(h, x, s[1..]));
        assert r[j] == x || r[j] in s[1..];
      }
    }
  }

  lemma {:induction false} SortSorted(h: Order, s: seq<Address>)
    ensures Sorted(h, Sort(h, s))
  {
    if s != [] {
      SortSorted(h, s[1..]);
      InsertSorted(h, s[0], Sort(h, s[1..]));
    }
  }

  lemma SameFirst(h: Order, s: seq<Address>, t: seq<Address>)
    requires Sorted(h, s) && Sorted(h, t) && multiset(s) == multiset(t) && s != [] && t != []
    ensures h(s[0]) == h(t[0]) && t[0] in s
  {
    hide Less;
    assert s[0] in multiset(t) && t[0] in multiset(s);
    var i, j :| 0 <= i < |t| && t[i] == s[0] && 0 <= j < |s| && s[j] == t[0];
    LessTrichotomy(h(s[0]), h(t[0]));
  }

  lemma SameRest(s: seq<Address>, t: seq<Address>)
    requires multiset(s) == multiset(t) && s != [] && t != [] && s[0] == t[0]
    ensures multiset(s[1..]) == multiset(t[1..])
  {
    assert s == [s[0]] + s[1..] && t == [t[0]] + t[1..];
    assert multiset(s[1..]) == multiset(s) - multiset{s[0]} && multiset(t[1..]) == multiset(t) - multiset{t[0]};
  }

  /** However the list is sorted, without a hash collision there is one result. */
  lemma {:induction false} OneOrder(h: Order, s: seq<Address>, t: seq<Address>)
    requires Sorted(h, s) && Sorted(h, t) && multiset(s) == multiset(t)
    requires forall x, y :: x in s && y in s && h(x) == h(y) ==> x == y
    ensures s == t
  {
    hide Less;
    assert |s| == |multiset(s)| == |multiset(t)| == |t|;
    if s != [] {
      SameFirst(h, s, t);
      SameRest(s, t);
      OneOrder(h, s[1..], t[1..]);
      assert s == [s[0]] + s[1..] && t == [t[0]] + t[1..];
    }
  }

  // ---- the scheduler ----

  /** The proposers a scheduler takes into account: the active ones and its own. */
  function Listed(addr: Address, proposers: seq<Proposer>): seq<Address> {
    if proposers == [] then []
    else
      var p := proposers[|proposers| - 1];
      Listed(addr, proposers[..|proposers| - 1]) + if p.active || p.address == addr then [p.address] else []
  }

  /** Everybody who is active, and the one who asks. */
  lemma {:induction false} ListedAre(addr: Address, proposers: seq<Proposer>, a: Address)
    ensures a in Listed(addr, proposers) <==>
            exists i :: 0 <= i < |proposers| && proposers[i].address == a && (proposers[i].active || a == addr)
  {
    if proposers != [] {
      var n := |proposers| - 1;
      ListedAre(addr, proposers[..n], a);
      assert forall i :: 0 <= i < n ==> proposers[..n][i] == proposers[i];
    }
  }

  predicate Has(addr: Address, proposers: seq<Proposer>) { exists p :: p in proposers && p.address == addr }

  datatype Scheduler = Scheduler(proposer: Proposer, parentBlockTime: nat, shuffled: seq<Address>) {

    ghost predicate Valid() { proposer.address in shuffled }

    /** The slot of a block time after the parent, in units of the interval. */
    predicate IsScheduled(blockTime: nat, who: Address)
      requires shuffled != []
    {
      if parentBlockTime >= blockTime then false
      else if (blockTime - parentBlockTime) % T != 0 then false
      else shuffled[(blockTime - parentBlockTime - T) / T % |shuffled|] == who
    }

    predicate IsTheTime(newBlockTime: nat)
      requires shuffled != []
    {
      IsScheduled(newBlockTime, proposer.address)
    }

    /** Whose turn a slot is; slot k is at k + 1 intervals after the parent. */
    function Turn(slot: nat): Address
      requires shuffled != []
    {
      shuffled[slot % |shuffled|]
    }

    /** The first own slot from now on; the times must leave room in 64 bits for a turn of everyone. */
    method Schedule(nowTime: nat) returns (newBlockTime: nat)
      requires Valid() && parentBlockTime + T * (|shuffled| + 2) < TWO64 && nowTime + T * (|shuffled| + 2) < TWO64
      ensures nowTime <= newBlockTime < TWO64 && newBlockTime > parentBlockTime && IsTheTime(newBlockTime)
      ensures forall t: nat :: nowTime <= t < newBlockTime ==> !IsTheTime(t)
    {
      newBlockTime := parentBlockTime + T;
      if nowTime > newBlockTime {
        newBlockTime := newBlockTime + (nowTime - newBlockTime + T - 1) / T * T;
      }
      var offset := (newBlockTime - parentBlockTime) / T - 1;
      FirstSlot(parentBlockTime, nowTime, newBlockTime, offset);
      ghost var own := OwnTurn(this, offset);
      hide Turn, IsScheduled;
      for i := 0 to |shuffled|
        invariant i <= own && offset >= 0
        invariant forall slot: nat :: offset <= slot < offset + i ==> Turn(slot) != proposer.address
      {
        if Turn(i + offset) == proposer.address {
          LeastSlot(this, nowTime, offset, i);
          return newBlockTime + i * T;
        }
      }
      assert false;
    }

    function Changes(newBlockTime: nat): seq<Proposer> {
      Absent(newBlockTime) + if proposer.active then [] else [Proposer(proposer.address, true)]
    }

    function Score(newBlockTime: nat): int { |shuffled| - |Absent(newBlockTime)| }

    predicate SlotBefore(i: nat, newBlockTime: nat) { parentBlockTime + T + i * T < newBlockTime }

    /** How many slots lie before a block time, of one turn of everyone. */
    function Missed(newBlockTime: nat, n: nat): (m: nat)
      requires n <= |shuffled|
      ensures m <= n
      ensures forall i: nat :: i < m ==> SlotBefore(i, newBlockTime)
      ensures m < n ==> !SlotBefore(m, newBlockTime)
    {
      if n == 0 then 0
      else
        var m := Missed(newBlockTime, n - 1);
        if m == n - 1 && SlotBefore(m, newBlockTime) then n else m
    }

    /** Those who missed their slot. */
    function Absent(newBlockTime: nat): seq<Proposer> {
      Idle(shuffled[..Missed(newBlockTime, |shuffled|)], proposer.address)
    }

    /** The absent turn inactive, the proposer turns active; the score counts the others. */
    method Updates(newBlockTime: nat) returns (updates: seq<Proposer>, score: nat)
      requires Valid()
      ensures updates == Changes(newBlockTime) && score == Score(newBlockTime) && 1 <= score <= |shuffled|
    {
      updates := [];
      var i := 0;
      while i < |shuffled|
        invariant 0 <= i <= |shuffled| && updates == Idle(shuffled[..i], proposer.address)
        invariant forall k: nat :: k < i ==> SlotBefore(k, newBlockTime)
      {
        if !SlotBefore(i, newBlockTime) { break; }
        assert shuffled[..i + 1][..i] == shuffled[..i];
        if shuffled[i] != proposer.address { updates := updates + [Proposer(shuffled[i], false)]; }
        i := i + 1;
      }
      MissedIs(this, newBlockTime, i);
      SomeoneLeft(this, i);
      score := |shuffled| - |updates|;
      if !proposer.active { updates := updates + [proposer.(active := true)]; }
    }
  }

  /** Those of a list, other than the proposer, as inactive. */
  function Idle(s: seq<Address>, own: Address): seq<Proposer> {
    if s == [] then []
    else
      Idle(s[..|s| - 1], own) + if s[|s| - 1] != own then [Proposer(s[|s| - 1], false)] else []
  }

  lemma {:induction false} IdleCount(s: seq<Address>, own: Address)
    ensures |Idle(s, own)| == |s| - multiset(s)[own]
  {
    if s != [] {
      assert s == s[..|s| - 1] + [s[|s| - 1]];
      IdleCount(s[..|s| - 1], own);
    }
  }

  lemma SomeoneLeft(s: Scheduler, i: nat)
    requires s.Valid() && i <= |s.shuffled|
    ensures |Idle(s.shuffled[..i], s.proposer.address)| < |s.shuffled|
  {
    IdleCount(s.shuffled[..i], s.proposer.address);
    assert s.shuffled == s.shuffled[..i] + s.shuffled[i..];
    if i == |s.shuffled| { assert s.proposer.address in multiset(s.shuffled[..i]); }
  }

  lemma MissedIs(s: Scheduler, newBlockTime: nat, i: nat)
    requires i <= |s.shuffled| && forall k: nat :: k < i ==> s.SlotBefore(k, newBlockTime)
    requires i < |s.shuffled| ==> !s.SlotBefore(i, newBlockTime)
    ensures s.Missed(newBlockTime, |s.shuffled|) == i
  {
    hide s.SlotBefore;
    var m := s.Missed(newBlockTime, |s.shuffled|);
  }

  /** Where the hashes of two proposers first differ, the one that comes first has the smaller byte. */
  lemma OrderIs(h: Order, s: seq<Address>, i: nat, j: nat, n: nat)
    requires Sorted(h, s) && i < j < |s|
    requires n < |h(s[i])| && n < |h(s[j])| && h(s[i])[..n] == h(s[j])[..n] && h(s[i])[n] != h(s[j])[n]
    ensures h(s[i])[n] < h(s[j])[n]
  {
    LessAt(h(s[i]), h(s[j]), n);
    LessAt(h(s[j]), h(s[i]), n);
  }

  // ---- the updates and the score, by the schedule ----

  /** The time of a slot in the first turn of everyone. */
  function SlotTime(s: Scheduler, k: nat): nat { s.parentBlockTime + 10 * (k + 1) }

  lemma FirstTurn(s: Scheduler, k: nat, who: Address)
    requires k < |s.shuffled|
    ensures s.IsScheduled(SlotTime(s, k), who) <==> s.shuffled[k] == who
  {
    assert (SlotTime(s, k) - s.parentBlockTime - T) / T == k;
  }

  lemma MissedAre(s: Scheduler, newBlockTime: nat, k: nat)
    requires k < |s.shuffled|
    ensures k < s.Missed(newBlockTime, |s.shuffled|) <==> SlotTime(s, k) < newBlockTime
  {
    var m := s.Missed(newBlockTime, |s.shuffled|);
    assert k < m ==> s.SlotBefore(k, newBlockTime);
    assert m < |s.shuffled| ==> !s.SlotBefore(m, newBlockTime);
  }

  lemma {:induction false} IdleAre(s: seq<Address>, own: Address, p: Proposer)
    ensures p in Idle(s, own) <==> !p.active && p.address != own && p.address in s
  {
    if s != [] {
      IdleAre(s[..|s| - 1], own, p);
      assert s == s[..|s| - 1] + [s[|s| - 1]];
    }
  }

  predicate InFirstTurn(s: Scheduler, t: nat) { s.parentBlockTime < t <= s.parentBlockTime + 10 * |s.shuffled| }

  /** Someone has a slot of the first turn before the new block. */
  ghost predicate PassedOver(s: Scheduler, newBlockTime: nat, who: Address)
    requires s.shuffled != []
  {
    exists t: nat :: InFirstTurn(s, t) && t < newBlockTime && s.IsScheduled(t, who)
  }

  lemma PassedOverIff(s: Scheduler, newBlockTime: nat, who: Address)
    requires s.shuffled != []
    ensures PassedOver(s, newBlockTime, who) <==> who in s.shuffled[..s.Missed(newBlockTime, |s.shuffled|)]
  {
    hide s.IsScheduled, s.Turn, s.Missed;
    var m := s.Missed(newBlockTime, |s.shuffled|);
    if PassedOver(s, newBlockTime, who) {
      var t: nat :| InFirstTurn(s, t) && t < newBlockTime && s.IsScheduled(t, who);
      SlotOf(s, t, who);
      var slot: nat :| AtSlot(s, t, slot) && s.Turn(slot) == who;
      assert t == SlotTime(s, slot) && slot < |s.shuffled|;
      FirstTurn(s, slot, who);
      MissedAre(s, newBlockTime, slot);
      assert s.shuffled[..m][slot] == who;
    }
    if who in s.shuffled[..m] {
      var k: nat :| k < m && s.shuffled[..m][k] == who;
      MissedAre(s, newBlockTime, k);
      FirstTurn(s, k, who);
      var t := SlotTime(s, k);
      assert s.IsScheduled(t, who);
    }
  }

  /**
   Exactly those other than the proposer who let a slot of their own pass turn inactive; the one to turn active is
   the proposer, if it was not.
   */
  lemma ChangesAre(s: Scheduler, newBlockTime: nat, p: Proposer)
    requires s.shuffled != []
    ensures p in s.Changes(newBlockTime) <==>
            if p.active then p.address == s.proposer.address && !s.proposer.active
            else p.address != s.proposer.address && PassedOver(s, newBlockTime, p.address)
  {
    hide PassedOver, s.Missed;
    PassedOverIff(s, newBlockTime, p.address);
    IdleAre(s.shuffled[..s.Missed(newBlockTime, |s.shuffled|)], s.proposer.address, p);
  }

  /** The slots of the first turn that others have let pass. */
  ghost function PassedSlots(s: Scheduler, newBlockTime: nat): set<nat>
    requires s.shuffled != []
  {
    set k: nat | k < |s.shuffled| && SlotTime(s, k) < newBlockTime && !s.IsScheduled(SlotTime(s, k), s.proposer.address)
  }

  ghost function Others(s: seq<Address>, own: Address): set<nat> { set k: nat | k < |s| && s[k] != own }

  lemma {:induction false} IdleSize(s: seq<Address>, own: Address)
    ensures |Idle(s, own)| == |Others(s, own)|
  {
    if s != [] {
      var n := |s| - 1;
      IdleSize(s[..n], own);
      assert n !in Others(s[..n], own);
      assert Others(s, own) == Others(s[..n], own) + if s[n] != own then {n} else {};
    } else {
      assert Others(s, own) == {};
    }
  }

  /** The score is the number of slots in a turn, less those that others have let pass. */
  lemma ScoreIs(s: Scheduler, newBlockTime: nat)
    requires s.shuffled != []
    ensures s.Score(newBlockTime) == |s.shuffled| - |PassedSlots(s, newBlockTime)|
  {
    hide s.Missed, s.IsScheduled, SlotTime;
    var m, own := s.Missed(newBlockTime, |s.shuffled|), s.proposer.address;
    IdleSize(s.shuffled[..m], own);
    forall k: nat ensures k in PassedSlots(s, newBlockTime) <==> k in Others(s.shuffled[..m], own) {
      if k < |s.shuffled| {
        MissedAre(s, newBlockTime, k);
        FirstTurn(s, k, own);
      }
    }
    assert PassedSlots(s, newBlockTime) == Others(s.shuffled[..m], own);
  }

  lemma SlotOf(s: Scheduler, t: nat, who: Address)
    requires s.shuffled != []
    ensures s.IsScheduled(t, who) <==> exists slot: nat :: AtSlot(s, t, slot) && s.Turn(slot) == who
  {
    if s.parentBlockTime < t && (t - s.parentBlockTime) % T == 0 {
      var slot := (t - s.parentBlockTime - T) / T;
      assert AtSlot(s, t, slot);
    }
  }

  ghost predicate AtSlot(s: Scheduler, t: nat, slot: nat) { t == s.parentBlockTime + T * (slot + 1) }

  /** The first time from now on that is a slot. */
  lemma FirstSlot(parent: nat, now: nat, t: nat, offset: int)
    requires t == if now > parent + T then parent + T + (now - (parent + T) + T - 1) / T * T else parent + T
    requires offset == (t - parent) / T - 1
    ensures offset >= 0 && t == parent + T * (offset + 1) && now <= t
    ensures (offset == 0 || t - T < now) && (t <= parent + T || t < now + T)
  {
  }

  lemma DivUnique(a: nat, n: nat, q: nat, r: nat)
    requires n > 0 && a == n * q + r && r < n
    ensures a % n == r
  {
    var d := a / n - q;
    assert n * d == r - a % n;
    Multiple(n, d);
  }

  lemma Multiple(n: nat, d: int)
    ensures d >= 1 ==> n * d >= n
    ensures d <= -1 ==> n * d + n <= 0
  {
  }

  /** Within one turn of everyone the proposer's own turn comes. */
  lemma OwnTurn(s: Scheduler, offset: nat) returns (i: nat)
    requires s.Valid()
    ensures i < |s.shuffled| && s.Turn(offset + i) == s.proposer.address
  {
    var n := |s.shuffled|;
    var m :| 0 <= m < n && s.shuffled[m] == s.proposer.address;
    var q, r := offset / n, offset % n;
    if r <= m {
      i := m - r;
      DivUnique(offset + i, n, q, m);
    } else {
      i := m + n - r;
      assert n * (q + 1) == n * q + n;
      DivUnique(offset + i, n, q + 1, m);
    }
  }

  lemma LeastSlot(s: Scheduler, now: nat, offset: nat, i: nat)
    requires s.shuffled != [] && s.Turn(offset + i) == s.proposer.address
    requires forall slot: nat :: offset <= slot < offset + i ==> s.Turn(slot) != s.proposer.address
    requires offset == 0 || s.parentBlockTime + T * offset < now
    ensures s.IsTheTime(s.parentBlockTime + T * (offset + i + 1))
    ensures forall t: nat :: now <= t < s.parentBlockTime + T * (offset + i + 1) ==> !s.IsTheTime(t)
  {
    hide s.Turn, s.IsScheduled;
    var last := s.parentBlockTime + T * (offset + i + 1);
    SlotOf(s, last, s.proposer.address);
    assert AtSlot(s, last, offset + i);
    forall t: nat | now <= t < last ensures !s.IsTheTime(t) {
      SlotOf(s, t, s.proposer.address);
      assert forall slot: nat :: AtSlot(s, t, slot) ==> offset <= slot < offset + i;
    }
  }

  // ---- making a scheduler ----

  /** The proposers a scheduler was made for, with the order of the block at hand. */
  ghost predicate MadeFor(s: Scheduler, h: Order, addr: Address, proposers: seq<Proposer>) {
    && s.proposer in proposers && s.proposer.address == addr
    && Sorted(h, s.shuffled) && multiset(s.shuffled) == multiset(Listed(addr, proposers))
  }

  method NewSchedulerV2(addr: Address, proposers: seq<Proposer>, parentBlockTime: nat, h: Order)
    returns (r: Option<Scheduler>)
    ensures r.Some? <==> Has(addr, proposers)
    ensures r.Some? ==>
              MadeFor(r.value, h, addr, proposers) && r.value.Valid() && r.value.parentBlockTime == parentBlockTime
  {
    hide Sorted, Sort;
    var listed, proposer, list := false, Proposer([], false), [];
    for i := 0 to |proposers|
      invariant listed <==> Has(addr, proposers[..i])
      invariant listed ==> proposer in proposers[..i] && proposer.address == addr && addr in list
      invariant list == Listed(addr, proposers[..i])
    {
      var p := proposers[i];
      assert proposers[..i + 1] == proposers[..i] + [p] && proposers[..i + 1][..i] == proposers[..i];
      if p.address == addr { proposer, listed := p, true; }
      if p.active || p.address == addr { list := list + [p.address]; }
    }
    assert proposers[..|proposers|] == proposers;
    if !listed { return None; }
    SortSorted(h, list);
    assert addr in multiset(list);
    r := Some(Scheduler(proposer, parentBlockTime, Sort(h, list)));
  }

  ghost predicate Distinct(proposers: seq<Proposer>) {
    forall i, j :: 0 <= i < j < |proposers| ==> proposers[i].address != proposers[j].address
  }

  /** No two of the proposers have the same hash. */
  ghost predicate NoTies(h: Order, proposers: seq<Proposer>) {
    forall p, q :: p in proposers && q in proposers && h(p.address) == h(q.address) ==> p.address == q.address
  }

  function Actives(proposers: seq<Proposer>): seq<Address> {
    if proposers == [] then []
    else
      var p := proposers[|proposers| - 1];
      Actives(proposers[..|proposers| - 1]) + if p.active then [p.address] else []
  }

  lemma {:induction false} ListedOfActive(addr: Address, proposers: seq<Proposer>, whole: seq<Proposer>)
    requires proposers <= whole && Distinct(whole) && Proposer(addr, true) in whole
    ensures Listed(addr, proposers) == Actives(proposers)
  {
    if proposers != [] {
      var p := proposers[|proposers| - 1];
      ListedOfActive(addr, proposers[..|proposers| - 1], whole);
      assert p == whole[|proposers| - 1];
      var i :| 0 <= i < |whole| && whole[i] == Proposer(addr, true);
      assert p.address == addr ==> i == |proposers| - 1;
    }
  }

  lemma {:induction false} ActivesAre(proposers: seq<Proposer>, a: Address)
    ensures a in Actives(proposers) <==> Proposer(a, true) in proposers
  {
    if proposers != [] {
      assert proposers == proposers[..|proposers| - 1] + [proposers[|proposers| - 1]];
      ActivesAre(proposers[..|proposers| - 1], a);
    }
  }

  /** Active proposers agree on the order. */
  lemma SameOrder(s: Scheduler, t: Scheduler, h: Order, a: Address, b: Address, proposers: seq<Proposer>)
    requires MadeFor(s, h, a, proposers) && MadeFor(t, h, b, proposers) && Distinct(proposers) && NoTies(h, proposers)
    requires Proposer(a, true) in proposers && Proposer(b, true) in proposers
    ensures s.shuffled == t.shuffled && multiset(s.shuffled) == multiset(Actives(proposers))
  {
    ListedOfActive(a, proposers, proposers);
    ListedOfActive(b, proposers, proposers);
    forall x, y | x in s.shuffled && y in s.shuffled && h(x) == h(y) ensures x == y {
      assert x in multiset(s.shuffled) && y in multiset(s.shuffled);
      ActivesAre(proposers, x);
      ActivesAre(proposers, y);
    }
    OneOrder(h, s.shuffled, t.shuffled);
  }

  /** Every slot belongs to exactly one active proposer: the schedulers that all of them make agree on who it is. */
  lemma OneTurnPerSlot(made: map<Address, Scheduler>, h: Order, proposers: seq<Proposer>, parentBlockTime: nat, t: nat)
    returns (who: Address)
    requires Distinct(proposers) && NoTies(h, proposers) && exists a :: Proposer(a, true) in proposers
    requires forall a :: Proposer(a, true) in proposers ==>
               && a in made && MadeFor(made[a], h, a, proposers)
               && made[a].shuffled != [] && made[a].parentBlockTime == parentBlockTime
    requires parentBlockTime < t && (t - parentBlockTime) % T == 0
    ensures Proposer(who, true) in proposers
    ensures forall a :: Proposer(a, true) in proposers ==> (made[a].IsTheTime(t) <==> a == who)
  {
    hide Sorted, Listed, Distinct, NoTies, Actives;
    var a0 :| Proposer(a0, true) in proposers;
    var s, slot := made[a0], (t - parentBlockTime - T) / T;
    who := s.Turn(slot);
    assert who in multiset(s.shuffled);
    hide s.Turn, s.IsScheduled;
    SameOrder(s, s, h, a0, a0, proposers);
    ActivesAre(proposers, who);
    forall a | Proposer(a, true) in proposers ensures made[a].IsTheTime(t) <==> a == who {
      SameOrder(s, made[a], h, a0, a, proposers);
      TurnAt(made[a], t, slot);
      SameTurn(s, made[a], slot);
    }
  }

  lemma TurnAt(s: Scheduler, t: nat, slot: nat)
    requires s.shuffled != [] && t == s.parentBlockTime + T * (slot + 1)
    ensures s.IsTheTime(t) <==> s.Turn(slot) == s.proposer.address
  {
    hide s.Turn, s.IsScheduled;
    SlotOf(s, t, s.proposer.address);
    assert AtSlot(s, t, slot);
  }

  lemma SameTurn(s: Scheduler, t: Scheduler, slot: nat)
    requires s.shuffled == t.shuffled != []
    ensures s.Turn(slot) == t.Turn(slot)
  {}

  lemma {:induction false} ListedSize(addr: Address, proposers: seq<Proposer>)
    ensures |Listed(addr, proposers)| <= |proposers|
  {
    if proposers != [] { ListedSize(addr, proposers[..|proposers| - 1]); }
  }

  lemma ShuffledSize(s: Scheduler, h: Order, addr: Address, proposers: seq<Proposer>)
    requires MadeFor(s, h, addr, proposers)
    ensures |s.shuffled| <= |proposers|
  {
    ListedSize(addr, proposers);
    assert |s.shuffled| == |multiset(s.shuffled)| == |multiset(Listed(addr, proposers))|;
  }

  lemma {:induction false} ListedAreProposers(addr: Address, proposers: seq<Proposer>, a: Address)
    requires a in Listed(addr, proposers)
    ensures Has(a, proposers)
  {
    var rest, p := proposers[..|proposers| - 1], proposers[|proposers| - 1];
    assert p in proposers;
    if a in Listed(addr, rest) {
      ListedAreProposers(addr, rest, a);
      var q :| q in rest && q.address == a;
      assert q in proposers;
    }
  }

  /** Two nodes that make a scheduler for the same proposer make the same one. */
  lemma OneScheduler(s: Scheduler, t: Scheduler, h: Order, addr: Address, proposers: seq<Proposer>)
    requires MadeFor(s, h, addr, proposers) && MadeFor(t, h, addr, proposers) && Distinct(proposers)
             && NoTies(h, proposers)
    ensures s.proposer == t.proposer && s.shuffled == t.shuffled
  {
    forall x, y | x in s.shuffled && y in s.shuffled && h(x) == h(y) ensures x == y {
      assert x in multiset(s.shuffled) && y in multiset(s.shuffled);
      ListedAreProposers(addr, proposers, x);
      ListedAreProposers(addr, proposers, y);
    }
    OneOrder(h, s.shuffled, t.shuffled);
  }
}
