/**
 The rounds of the finality gadget and what they conclude, by a full recount of the votes on a chain
 (bft/engine.go, bft/justifier.go; VIP-220).
 */
module Finality {
  import opened BlockTree
  import opened Justifier

  const INITIAL_MAX_BLOCK_PROPOSERS := 101

  function Checkpoint(n: nat): nat { n / 180 * 180 }

  function StorePoint(n: nat): nat { Checkpoint(n) + 179 }

  function Round(n: nat): nat { n / 180 }

  /** The height of the last block of a round. */
  function End(r: nat): nat { r * 180 + 179 }

  function LastOfParentRound(n: nat): nat { if Checkpoint(n) > 0 then Checkpoint(n) - 1 else 0 }

  /**
   The blocks there are with what the engine reads of them: signer and COM bit of the header, and the
   proposer limit in the state after the block.
   */
  datatype Net = Net(blocks: Blocks, signer: Id -> Address, com: Id -> bool, limit: Id -> nat, finality: nat) {

    ghost predicate Has(id: Id) { blocks.Valid() && blocks.Has(id) }

    /** Blocks that take part in a round. */
    ghost predicate Counts(id: Id) { Has(id) && Number(id) > 0 && Number(id) >= finality }

    function VoteOf(id: Id): Vote { Vote(signer(id), com(id)) }

    function MaxBlockProposers(id: Id): nat {
      var mbp := limit(id);
      if mbp == 0 || mbp > INITIAL_MAX_BLOCK_PROPOSERS then INITIAL_MAX_BLOCK_PROPOSERS else mbp
    }

    function Threshold(last: Id): nat { MaxBlockProposers(last) * 2 / 3 }

    /** The votes from the start of the round, or of finality, up to a block. */
    ghost function Ballots(id: Id): set<Vote>
      requires Has(id)
      decreases Number(id)
    {
      if Number(id) < finality then {}
      else if Number(id) <= Checkpoint(Number(id)) then {VoteOf(id)}
      else Ballots(blocks.parent[id]) + {VoteOf(id)}
    }

    /** The last block of the round before. */
    ghost function Concluding(id: Id): (last: Id)
      requires Counts(id)
      ensures Has(last) && Number(last) < Number(id)
    {
      blocks.Ancestor(id, LastOfParentRound(Number(id)))
    }

    predicate FirstRound(n: nat) { Round(n) == Round(finality) }

    ghost function ParentQuality(id: Id): nat
      requires Counts(id)
      decreases Number(id), 0
    {
      if FirstRound(Number(id)) then 0 else State(Concluding(id)).quality
    }

    ghost function State(id: Id): BftState
      requires Has(id)
      decreases Number(id), 1
    {
      if !Counts(id) then BftState(0, false, false)
      else Summary(ParentQuality(id), Threshold(Concluding(id)), Ballots(id))
    }

    /** The quality a chain has reached when round r ends. */
    ghost function RoundQuality(head: Id, r: nat): nat
      requires Has(head) && End(r) <= Number(head)
    {
      State(blocks.Ancestor(head, End(r))).quality
    }
  }

  lemma RoundOf(n: nat, r: nat)
    requires r * 180 <= n <= End(r)
    ensures Round(n) == r && Checkpoint(n) == r * 180 && StorePoint(n) == End(r)
    ensures r > 0 ==> LastOfParentRound(n) == End(r - 1)
  {
  }

  lemma RoundCovers(n: nat, r: nat)
    requires Round(n) <= r
    ensures n <= End(r)
  {
  }

  lemma SummaryStep(net: Net, id: Id)
    requires net.Counts(id)
    ensures net.ParentQuality(id) <= net.State(id).quality <= net.ParentQuality(id) + 1
  {
  }

  /** Along a chain the quality never falls and rises by at most one per round. */
  lemma QualityStep(net: Net, head: Id, r: nat)
    requires net.Has(head) && Round(net.finality) <= r && End(r + 1) <= Number(head)
    ensures net.RoundQuality(head, r) <= net.RoundQuality(head, r + 1) <= net.RoundQuality(head, r) + 1
  {
    hide Number, net.State, Checkpoint, Round, StorePoint;
    var x := net.blocks.Ancestor(head, End(r + 1));
    RoundOf(End(r + 1), r + 1);
    RoundCovers(net.finality, r);
    AncestorOfAncestor(net.blocks, head, End(r + 1), End(r));
    SummaryStep(net, x);
  }

  lemma {:induction false} QualityMonotone(net: Net, head: Id, r: nat, s: nat)
    requires net.Has(head) && Round(net.finality) <= r <= s && End(s) <= Number(head)
    ensures End(r) <= Number(head)
    ensures net.RoundQuality(head, r) <= net.RoundQuality(head, s)
    decreases s
  {
    hide Number, net.RoundQuality, Round;
    if r < s {
      QualityMonotone(net, head, r, s - 1);
      QualityStep(net, head, s - 1);
    }
  }

  /** Every quality between those of two rounds is the quality of a round between them. */
  lemma {:induction false} QualityReached(net: Net, head: Id, r: nat, s: nat, q: nat) returns (m: nat)
    requires net.Has(head) && Round(net.finality) <= r <= s && End(s) <= Number(head)
    requires End(r) <= Number(head)
    requires net.RoundQuality(head, r) <= q <= net.RoundQuality(head, s)
    ensures r <= m <= s && End(m) <= Number(head) && net.RoundQuality(head, m) == q
    decreases s
  {
    hide Number, net.RoundQuality, Round;
    if q == net.RoundQuality(head, s) {
      m := s;
    } else {
      QualityStep(net, head, s - 1);
      m := QualityReached(net, head, r, s - 1, q);
    }
  }

  /** A round that is committed is justified, so the round before it has the quality just below. */
  lemma CommittedFollows(net: Net, id: Id)
    requires net.Counts(id) && net.State(id).committed
    ensures net.State(id).justified && net.ParentQuality(id) == net.State(id).quality - 1
  {
    CommittedIsJustified(net.ParentQuality(id), net.Threshold(net.Concluding(id)), net.Ballots(id));
  }

  /** Two committed rounds under one proposer limit share more than a third of it, whatever branches they are on. */
  lemma CommittedOverlap(net: Net, x: Id, y: Id, proposers: set<Address>)
    requires net.Counts(x) && net.Counts(y) && net.State(x).committed && net.State(y).committed
    requires Voters(net.Ballots(x)) <= proposers && Voters(net.Ballots(y)) <= proposers
    requires |proposers| <= net.MaxBlockProposers(net.Concluding(x)) == net.MaxBlockProposers(net.Concluding(y))
    ensures 3 * |ComVoters(net.Ballots(x)) * ComVoters(net.Ballots(y))| > net.MaxBlockProposers(net.Concluding(x))
  {
    var n := net.MaxBlockProposers(net.Concluding(x));
    QuorumOverlap(proposers, n, net.Ballots(x), net.Ballots(y), net.ParentQuality(x), net.ParentQuality(y));
  }

  /** A vote cast at height n of the round that a block belongs to, from finality on. */
  ghost predicate CastAt(net: Net, id: Id, n: nat, v: Vote)
    requires net.Has(id)
  {
    Checkpoint(Number(id)) <= n <= Number(id) && n >= net.finality && v == net.VoteOf(net.blocks.Ancestor(id, n))
  }

  /** Who is in the ballots: the blocks of the round up to the head, from finality on. */
  lemma {:induction false} BallotsAreTheRound(net: Net, id: Id, v: Vote)
    requires net.Has(id)
    ensures v in net.Ballots(id) <==> exists n: nat :: CastAt(net, id, n, v)
    decreases Number(id)
  {
    hide Number, Checkpoint;
    var num: nat, start := Number(id), Checkpoint(Number(id));
    StartOf(num);
    assert net.finality <= num ==> (CastAt(net, id, num, v) <==> v == net.VoteOf(id));
    if start < num && net.finality <= num {
      var p := net.blocks.parent[id];
      StartOf(num - 1);
      BallotsAreTheRound(net, p, v);
      assert forall n: nat :: n < num ==> (CastAt(net, id, n, v) <==> CastAt(net, p, n, v));
    }
  }

  lemma StartOf(n: nat)
    ensures Checkpoint(n) <= n
    ensures Checkpoint(n) < n ==>
              && Checkpoint(n - 1) == Checkpoint(n) && Round(n - 1) == Round(n)
              && LastOfParentRound(n - 1) == LastOfParentRound(n)
  {
  }
}
