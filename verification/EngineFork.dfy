/**
 A run in which a committing round fails to finalize: one proposer, a chain of three rounds, and a second
 last block of the middle round.
 */
module EngineFork {
  import opened ByteStrings
  import opened BlockTree
  import opened Finality
  import opened Justifier
  import opened Engine

  /** A chain of three rounds with a block f beside the last one of the second; one proposer votes COM throughout. */
  ghost predicate Forked(net: Net, a: seq<Id>, f: Id) {
    && net.blocks.Valid() && net.finality == 0
    && |a| == 540 && a[0] == net.blocks.genesis
    && (forall i {:trigger a[i]} :: 0 <= i < 540 ==> net.blocks.Has(a[i]) && Number(a[i]) == i)
    && (forall id :: id in net.blocks.parent ==> 0 < Number(id) < 540 && net.blocks.parent[id] == a[Number(id) - 1])
    && net.blocks.Has(f) && Number(f) == 359
    && forall id: Id :: net.signer(id) == [] && net.com(id) && net.limit(id) == 1
  }

  lemma At(net: Net, a: seq<Id>, f: Id, i: nat)
    requires Forked(net, a, f) && i < 540
    ensures |a| == 540 && net.Has(a[i]) && Number(a[i]) == i && net.finality == 0
    ensures net.Has(f) && Number(f) == 359 && f in net.blocks.parent && net.blocks.parent[f] == a[358]
  {
    hide Number;
  }

  lemma {:induction false} LineAncestor(net: Net, a: seq<Id>, f: Id, id: Id, m: nat)
    requires Forked(net, a, f) && net.Has(id) && m < Number(id)
    ensures m < 540 && net.blocks.Ancestor(id, m) == a[m]
    decreases Number(id)
  {
    hide Number;
    var p := net.blocks.parent[id];
    assert p == a[Number(id) - 1];
    if m < Number(p) { LineAncestor(net, a, f, p, m); }
  }

  lemma {:induction false} OneBallot(net: Net, a: seq<Id>, f: Id, id: Id)
    requires Forked(net, a, f) && net.Has(id)
    ensures net.Ballots(id) == {Vote([], true)}
    decreases Number(id)
  {
    hide Number;
    StartOf(Number(id));
    if Checkpoint(Number(id)) < Number(id) { OneBallot(net, a, f, net.blocks.parent[id]); }
  }

  /** Every round is justified and committed. */
  lemma {:induction false} QualityOf(net: Net, a: seq<Id>, f: Id, id: Id)
    requires Forked(net, a, f) && net.Counts(id)
    ensures net.State(id) == BftState(Round(Number(id)) + 1, true, true)
    decreases Number(id)
  {
    hide Number, net.Ballots, Checkpoint, Round, Forked, net.blocks.Valid, net.blocks.Ancestor, LastOfParentRound;
    At(net, a, f, 0);
    OneSigner(net, a, f, net.Concluding(id));
    OneBallot(net, a, f, id);
    assert Voters({Vote([], true)}) == {[]} && ComVoters({Vote([], true)}) == {[]};
    assert net.Threshold(net.Concluding(id)) == 0;
    LastRound(Number(id));
    if !net.FirstRound(Number(id)) { QualityOf(net, a, f, net.Concluding(id)); }
  }

  lemma OneSigner(net: Net, a: seq<Id>, f: Id, id: Id)
    requires Forked(net, a, f)
    ensures net.limit(id) == 1
  {
    hide Number;
  }

  lemma LastRound(n: nat)
    ensures if Round(n) == Round(0) then Round(n) == 0
            else LastOfParentRound(n) > 0 && Round(LastOfParentRound(n)) == Round(n) - 1
  {
  }

  lemma Fired(net: Net, a: seq<Id>, f: Id, id: Id, r: nat)
    requires Forked(net, a, f) && net.Has(id) && Number(id) == End(r)
    ensures net.Counts(id) && StorePoint(Number(id)) == Number(id) && Checkpoint(Number(id)) == r * 180
    ensures net.State(id).quality == r + 1 && (Fires(net, id) <==> r >= 1)
    ensures r >= 1 ==> Number(net.Concluding(id)) == End(r - 1)
    ensures net.FirstRound(Number(id)) <==> r == 0
  {
    hide Number, Forked;
    At(net, a, f, 0);
    QualityOf(net, a, f, id);
    RoundOf(End(r), r);
  }

  /** The search of the third round ends at the checkpoint of the second. */
  lemma ThirdRound(net: Net, a: seq<Id>, f: Id, to: Id)
    requires |a| == 540 && Forked(net, a, f) && FirstReaching(net, a[539], 0, 2, to)
    ensures to == a[180]
  {
    hide Number, net.State, Round, Forked, net.blocks.Valid, net.blocks.Ancestor;
    At(net, a, f, 539);
    var m: nat :| FirstAt(net, a[539], 0, 2, m) && to == net.blocks.Ancestor(a[539], m * 180);
    assert m <= 2;
    Fired(net, a, f, net.blocks.Ancestor(a[539], End(m)), m);
    assert m == 1;
    LineAncestor(net, a, f, a[539], 180);
  }

  lemma SecondFinal(net: Net, a: seq<Id>, f: Id, from: Id, to: Id)
    requires |a| == 540 && Forked(net, a, f) && net.Has(a[359]) && Finalizes(net, from, a[359], to)
    ensures Number(to) == 0
  {
    hide Number, net.State, FirstReaching, SearchStart, Forked, net.blocks.Valid, net.blocks.OnChain;
    At(net, a, f, 359);
  }

  lemma ThirdFinal(net: Net, a: seq<Id>, f: Id, from: Id, to: Id)
    requires |a| == 540 && Forked(net, a, f) && net.Has(a[539]) && Number(from) == 0 && Finalizes(net, from, a[539], to)
    ensures to == a[180]
  {
    hide Number, net.State, FirstReaching, Forked, net.blocks.Valid, net.blocks.OnChain;
    At(net, a, f, 539);
    Fired(net, a, f, a[539], 2);
    ThirdRound(net, a, f, to);
  }

  lemma HasParent(net: Net, id: Id)
    requires net.Has(id) && Number(id) > 0
    ensures id in net.blocks.parent && net.Has(net.blocks.parent[id])
  {
    hide Number;
  }

  lemma MayCommit(net: Net, a: seq<Id>, f: Id, qualities: map<Id, nat>, finalized: Id, id: Id, r: nat)
    requires |a| == 540 && Forked(net, a, f)
    requires net.Has(id) && Number(id) == End(r) && r <= 2 && (r >= 1 ==> a[End(r - 1)] in qualities)
    requires Number(finalized) == 0 || (finalized == a[180] && id == f)
    ensures Number(id) > 0 && PrevSaved(net, qualities, id)
    ensures id in net.blocks.parent && net.Has(net.blocks.parent[id])
    ensures Accepted(net, finalized, net.blocks.parent[id])
  {
    hide Number, net.State, Round, Checkpoint, Forked, net.blocks.Valid, net.blocks.Ancestor;
    At(net, a, f, 180);
    At(net, a, f, 358);
    HasParent(net, id);
    Fired(net, a, f, id, r);
    if r >= 1 { LineAncestor(net, a, f, id, End(r - 1)); }
    if Number(finalized) != 0 { LineAncestor(net, a, f, a[358], 180); }
  }

  method CommitRound(e: Engine, ghost a: seq<Id>, ghost f: Id, id: Id, ghost r: nat) returns (ok: bool)
    requires e.Valid() && |a| == 540 && Forked(e.net, a, f)
    requires e.net.Has(id) && Number(id) == End(r) && r <= 2 && (r >= 1 ==> a[End(r - 1)] in e.qualities)
    requires Number(e.finalized) == 0 || (e.finalized == a[180] && id == f)
    modifies e, e.justifiers.Values
    ensures e.Valid() && fresh(e.justifiers.Values - old(e.justifiers.Values))
    ensures e.qualities == old(e.qualities)[id := r + 1]
    ensures ok <==> (r >= 1 ==> Number(old(e.finalized)) < r * 180)
    ensures if r >= 1 && ok then Finalizes(e.net, old(e.finalized), id, e.finalized)
            else e.finalized == old(e.finalized)
  {
    hide Number, e.net.State, Round, Checkpoint, StorePoint, e.net.Counts, End, e.net.blocks.Valid, Forked;
    hide StoreOk, StatesOk, QualityCacheOk, JustifiersOk, FinalizedOk, PrevSaved, Accepted, Fires, Finalizes;
    MayCommit(e.net, a, f, e.qualities, e.finalized, id, r);
    Fired(e.net, a, f, id, r);
    ok := e.CommitBlock(id);
  }

  /** Three rounds of the chain bring finality to the checkpoint of the second. */
  method ThreeRounds(net: Net, a: seq<Id>, ghost f: Id) returns (e: Engine)
    requires |a| == 540 && Forked(net, a, f)
    ensures fresh(e) && fresh(e.justifiers.Values) && e.Valid() && e.net == net
    ensures e.finalized == a[180] && a[179] in e.qualities
  {
    hide Number, StoreOk, StatesOk, QualityCacheOk, JustifiersOk, FinalizedOk, Finalizes, Forked, net.blocks.Valid;
    Heads(net, a, f);
    NothingSaved(net);
    e := new Engine(net, map[], None);
    var ok := CommitRound(e, a, f, a[179], 0);
    ghost var from := e.finalized;
    ok := CommitRound(e, a, f, a[359], 1);
    SecondFinal(net, a, f, from, e.finalized);
    from := e.finalized;
    ok := CommitRound(e, a, f, a[539], 2);
    ThirdFinal(net, a, f, from, e.finalized);
  }

  /** Finality has reached the second round when a second last block of that round comes: its commit fails. */
  method FailingCommit(net: Net, a: seq<Id>, f: Id) returns (e: Engine, ok: bool)
    requires |a| == 540 && Forked(net, a, f)
    ensures e.Valid() && e.net == net && e.finalized == a[180] && !ok
  {
    hide Number, StoreOk, StatesOk, QualityCacheOk, JustifiersOk, FinalizedOk, Finalizes, Forked, net.blocks.Valid;
    Heads(net, a, f);
    e := ThreeRounds(net, a, f);
    ok := CommitRound(e, a, f, f, 1);
  }

  lemma Heads(net: Net, a: seq<Id>, f: Id)
    requires Forked(net, a, f)
    ensures |a| == 540 && net.blocks.Valid() && Number(a[180]) == 180 && Number(net.blocks.genesis) == 0
    ensures net.Has(a[179]) && Number(a[179]) == 179 && net.Has(a[359]) && Number(a[359]) == 359
    ensures net.Has(a[539]) && Number(a[539]) == 539 && net.Has(f) && Number(f) == 359
  {
    hide Number;
  }

  lemma NothingSaved(net: Net)
    ensures StoreOk(net, map[])
  {
  }

  // ---- there is such a chain ----

  const TAIL: Bytes := [0, 0, 0, 0, 0, 0, 0, 0, 0, 0, 0, 0, 0, 0, 0, 0, 0, 0, 0, 0, 0, 0, 0, 0, 0, 0, 0, 0]
  const FORK_TAIL: Bytes := [0, 0, 0, 0, 0, 0, 0, 0, 0, 0, 0, 0, 0, 0, 0, 0, 0, 0, 0, 0, 0, 0, 0, 0, 0, 0, 0, 1]

  function IdOf(n: Uint32, tail: Bytes): Id
    requires |tail| == 28
  {
    Uint32Bytes(n) + tail
  }

  lemma NumberOf(n: Uint32, tail: Bytes)
    requires |tail| == 28
    ensures Number(IdOf(n, tail)) == n
  {
    Uint32RoundTrip(n, tail);
  }

  /** The first n blocks of a chain. */
  function Parents(n: Uint32): map<Id, Id> {
    if n == 0 then map[] else Parents(n - 1)[IdOf(n, TAIL) := IdOf(n - 1, TAIL)]
  }

  lemma {:induction false} ParentsAre(n: Uint32, id: Id)
    ensures id in Parents(n) <==> 1 <= Number(id) <= n && id == IdOf(Number(id), TAIL)
    ensures id in Parents(n) ==> Parents(n)[id] == IdOf(Number(id) - 1, TAIL)
    decreases n
  {
    hide Number, IdOf;
    NumberOf(n, TAIL);
    if n > 0 { ParentsAre(n - 1, id); }
  }

  function Chain540(): (a: seq<Id>)
    ensures |a| == 540
  {
    seq(540, i requires 0 <= i < 540 => IdOf(i, TAIL))
  }

  lemma InChain(i: nat)
    requires i < 540
    ensures Chain540()[i] == IdOf(i, TAIL) && Number(Chain540()[i]) == i
  {
    NumberOf(i, TAIL);
  }

  /** The tree of the chain and one block more. */
  lemma TreeOk(b: Blocks, f: Id, top: Uint32)
    requires top == 539 && Number(f) == 359 && f != Chain540()[359]
    requires b == Blocks(Chain540()[0], Parents(top)[f := Chain540()[358]])
    ensures b.Valid() && b.Has(f)
    ensures forall i: nat :: i < 540 ==> b.Has(Chain540()[i]) && Number(Chain540()[i]) == i
    ensures forall id :: id in b.parent ==> 0 < Number(id) < 540 && b.parent[id] == Chain540()[Number(id) - 1]
  {
    hide Number, IdOf, Parents, Chain540;
    var a := Chain540();
    forall i: nat | i < 540 ensures b.Has(a[i]) && Number(a[i]) == i && a[i] == IdOf(i, TAIL) {
      InChain(i);
      ParentsAre(top, a[i]);
    }
    forall id | id in b.parent ensures 0 < Number(id) < 540 && b.parent[id] == a[Number(id) - 1] {
      ParentsAre(top, id);
    }
  }

  lemma ForkApart()
    ensures Number(IdOf(359, FORK_TAIL)) == 359 && IdOf(359, FORK_TAIL) != Chain540()[359]
  {
    NumberOf(359, FORK_TAIL);
    InChain(359);
    hide Number, Chain540;
    assert IdOf(359, FORK_TAIL)[31] == 1 && IdOf(359, TAIL)[31] == 0;
  }

  method ForkExists(top: Uint32) returns (net: Net, a: seq<Id>, f: Id)
    requires top == 539
    ensures |a| == 540 && Forked(net, a, f)
  {
    hide Number, IdOf, Parents, Chain540;
    ForkApart();
    f := IdOf(359, FORK_TAIL);
    a := Chain540();
    var blocks := Blocks(a[0], Parents(top)[f := a[358]]);
    TreeOk(blocks, f, top);
    hide blocks.Valid, blocks.Has;
    net := Net(blocks, _ => [], _ => true, _ => 1, 0);
  }
}
