/**
 The rule of finality in plain terms (VIP-220; bft/engine.go, bft/justifier.go): who signed which blocks of a round,
 what share of the proposer limit that is, and which checkpoint becomes final.
 */
module FinalityRule {
  import opened ByteStrings
  import opened BlockTree
  import opened Justifier
  import opened Finality
  import opened Engine

  /** The first height that votes in the round of a block. */
  function FirstVote(net: Net, n: nat): nat { if n / 180 * 180 < net.finality then net.finality else n / 180 * 180 }

  /** Who signed a block of the round up to this one. */
  ghost function Signers(net: Net, id: Id): set<Address>
    requires net.Has(id)
  {
    set n: nat | FirstVote(net, Number(id)) <= n <= Number(id) :: net.signer(net.blocks.Ancestor(id, n))
  }

  /** Who signed with COM, and never without it. */
  ghost function ComSigners(net: Net, id: Id): set<Address>
    requires net.Has(id)
  {
    set a | a in Signers(net, id) && forall n: nat :: SignedAt(net, id, n, a) ==> net.com(net.blocks.Ancestor(id, n))
  }

  ghost predicate SignedAt(net: Net, id: Id, n: nat, a: Address)
    requires net.Has(id)
  {
    FirstVote(net, Number(id)) <= n <= Number(id) && net.signer(net.blocks.Ancestor(id, n)) == a
  }

  /** The block before the round: its state has the proposer limit. */
  ghost function BeforeRound(net: Net, id: Id): Id
    requires net.Has(id)
  {
    net.blocks.Ancestor(id, if Number(id) < 180 then 0 else Number(id) / 180 * 180 - 1)
  }

  /** The proposer limit of a round: 101 unless a smaller one is set. */
  ghost function Limit(net: Net, id: Id): (n: nat)
    requires net.Has(id)
    ensures n == 101 || n == net.limit(BeforeRound(net, id))
    ensures n == 101 <==> net.limit(BeforeRound(net, id)) == 0 || net.limit(BeforeRound(net, id)) >= 101
  {
    var n := net.limit(BeforeRound(net, id));
    if 1 <= n <= 101 then n else 101
  }

  lemma CastIsSigned(net: Net, id: Id, n: nat, v: Vote)
    requires net.Has(id)
    ensures CastAt(net, id, n, v) <==>
            FirstVote(net, Number(id)) <= n <= Number(id) && v == net.VoteOf(net.blocks.Ancestor(id, n))
  {
    hide Number;
  }

  lemma VotersAreSigners(net: Net, id: Id)
    requires net.Has(id)
    ensures Voters(net.Ballots(id)) == Signers(net, id)
  {
    hide Number, net.Ballots, CastAt, FirstVote;
    forall a ensures a in Voters(net.Ballots(id)) <==> a in Signers(net, id) {
      if a in Voters(net.Ballots(id)) {
        var v :| v in net.Ballots(id) && v.signer == a;
        BallotsAreTheRound(net, id, v);
        var n: nat :| CastAt(net, id, n, v);
        CastIsSigned(net, id, n, v);
      }
      if a in Signers(net, id) {
        var n: nat :| FirstVote(net, Number(id)) <= n <= Number(id) && a == net.signer(net.blocks.Ancestor(id, n));
        var v := net.VoteOf(net.blocks.Ancestor(id, n));
        CastIsSigned(net, id, n, v);
        BallotsAreTheRound(net, id, v);
      }
    }
  }

  lemma ComVotersAreSigners(net: Net, id: Id)
    requires net.Has(id)
    ensures ComVoters(net.Ballots(id)) == ComSigners(net, id)
  {
    hide Number, net.Ballots, CastAt, FirstVote, Voters, Signers;
    VotersAreSigners(net, id);
    forall a ensures Vote(a, false) in net.Ballots(id) <==>
                     exists n: nat :: SignedAt(net, id, n, a) && !net.com(net.blocks.Ancestor(id, n)) {
      BallotsAreTheRound(net, id, Vote(a, false));
      if Vote(a, false) in net.Ballots(id) {
        var n: nat :| CastAt(net, id, n, Vote(a, false));
        CastIsSigned(net, id, n, Vote(a, false));
        assert SignedAt(net, id, n, a);
      }
      if n: nat :| SignedAt(net, id, n, a) && !net.com(net.blocks.Ancestor(id, n)) {
        CastIsSigned(net, id, n, Vote(a, false));
      }
    }
  }

  lemma TwoThirds(x: nat, n: nat)
    ensures x > n * 2 / 3 <==> 3 * x > 2 * n
  {
  }

  lemma ThresholdIs(net: Net, id: Id)
    requires net.Counts(id)
    ensures net.Concluding(id) == BeforeRound(net, id) && net.Threshold(net.Concluding(id)) == Limit(net, id) * 2 / 3
  {
    hide Number, Checkpoint, net.blocks.Ancestor;
    LastBefore(Number(id));
  }

  lemma LastBefore(n: nat)
    ensures LastOfParentRound(n) == if n < 180 then 0 else n / 180 * 180 - 1
  {
  }

  /**
   A round is justified when more than two thirds of the limit have signed in it, committed when more than two
   thirds have signed with COM only; quality counts the justified rounds.
   */
  lemma RoundRule(net: Net, id: Id)
    requires net.Counts(id)
    ensures net.State(id).justified <==> 3 * |Signers(net, id)| > 2 * Limit(net, id)
    ensures net.State(id).committed <==> 3 * |ComSigners(net, id)| > 2 * Limit(net, id)
    ensures net.State(id).quality == net.ParentQuality(id) + if net.State(id).justified then 1 else 0
  {
    hide Number, net.Ballots, Signers, ComSigners, Voters, ComVoters, Limit, net.Threshold, net.ParentQuality;
    VotersAreSigners(net, id);
    ComVotersAreSigners(net, id);
    ThresholdIs(net, id);
    TwoThirds(|Signers(net, id)|, Limit(net, id));
    TwoThirds(|ComSigners(net, id)|, Limit(net, id));
  }

  // ---- quality counts justified rounds ----

  /** The last block of round k on the chain of head ends a justified round. */
  ghost predicate JustifiedRound(net: Net, head: Id, k: nat)
    requires net.Has(head)
  {
    k * 180 + 179 <= Number(head) &&
      var last := net.blocks.Ancestor(head, k * 180 + 179);
      3 * |Signers(net, last)| > 2 * Limit(net, last)
  }

  ghost function JustifiedRounds(net: Net, head: Id, r: nat): set<nat>
    requires net.Has(head)
  {
    set k: nat | net.finality / 180 <= k <= r && JustifiedRound(net, head, k)
  }

  /** The last block of a round builds on the last block of the round before. */
  lemma ParentOfRound(net: Net, head: Id, r: nat, x: Id)
    requires net.Has(head) && Round(net.finality) <= r && End(r) <= Number(head)
    requires x == net.blocks.Ancestor(head, End(r))
    ensures net.Counts(x) && (r > 0 ==> End(r - 1) <= Number(head))
    ensures net.ParentQuality(x) == if r == Round(net.finality) then 0 else net.RoundQuality(head, r - 1)
  {
    hide Number, net.State, Checkpoint, Round, StorePoint;
    RoundOf(End(r), r);
    RoundCovers(net.finality, r);
    if r > Round(net.finality) { AncestorOfAncestor(net.blocks, head, End(r), End(r - 1)); }
  }

  /** One round more: its quality is that of the round before and one if it is justified. */
  lemma QualityOfRound(net: Net, head: Id, r: nat)
    requires net.Has(head) && Round(net.finality) <= r && End(r) <= Number(head)
    ensures r > 0 ==> End(r - 1) <= Number(head)
    ensures net.RoundQuality(head, r) ==
            (if r == Round(net.finality) then 0 else net.RoundQuality(head, r - 1))
            + if JustifiedRound(net, head, r) then 1 else 0
  {
    hide Number, net.State, net.ParentQuality, net.Counts, Checkpoint, Round, Signers, Limit, ComSigners,
      net.blocks.Ancestor, net.blocks.Valid;
    var x := net.blocks.Ancestor(head, End(r));
    ParentOfRound(net, head, r, x);
    RoundRule(net, x);
  }

  lemma RoundsStep(net: Net, head: Id, r: nat)
    requires net.Has(head) && net.finality / 180 <= r
    ensures var before := if r == net.finality / 180 then {} else JustifiedRounds(net, head, r - 1);
            r !in before && JustifiedRounds(net, head, r) == before + if JustifiedRound(net, head, r) then {r} else {}
  {
    hide Number, JustifiedRound;
  }

  /** The quality of a round is the number of justified rounds on the chain since the finality fork. */
  lemma {:induction false} QualityCounts(net: Net, head: Id, r: nat)
    requires net.Has(head) && Round(net.finality) <= r && End(r) <= Number(head)
    ensures net.RoundQuality(head, r) == |JustifiedRounds(net, head, r)|
    decreases r
  {
    hide Number, net.RoundQuality, JustifiedRound, JustifiedRounds;
    QualityOfRound(net, head, r);
    RoundsStep(net, head, r);
    if r > Round(net.finality) { QualityCounts(net, head, r - 1); }
  }

  // ---- what becomes final ----

  lemma LastOfRound(net: Net, id: Id)
    requires net.Has(id) && Number(id) % 180 == 179 && Number(id) >= net.finality
    ensures net.Counts(id) && End(Round(Number(id))) == Number(id) && Round(net.finality) <= Round(Number(id))
    ensures net.RoundQuality(id, Round(Number(id))) == net.State(id).quality
  {
    hide Number, net.State;
  }

  /** A block finalizes when it ends a round, that round is committed, and it is not the first justified one. */
  lemma FiresIff(net: Net, id: Id)
    requires net.Has(id)
    ensures Fires(net, id) <==>
            && Number(id) % 180 == 179 && Number(id) >= net.finality
            && 3 * |ComSigners(net, id)| > 2 * Limit(net, id)
            && |JustifiedRounds(net, id, Number(id) / 180)| >= 2
  {
    hide Number, Signers, Limit, ComSigners, JustifiedRounds, net.RoundQuality;
    StorePointIs(Number(id));
    if Number(id) % 180 == 179 && Number(id) >= net.finality {
      LastOfRound(net, id);
      RoundRule(net, id);
      QualityCounts(net, id, Round(Number(id)));
    }
  }

  lemma StorePointIs(n: nat)
    ensures StorePoint(n) == n <==> n % 180 == 179
  {
  }

  /**
   The checkpoint that becomes final is that of the last justified round before the committing one; if none was
   justified since, finality stays where the search starts.
   */
  lemma FinalizesLastJustified(net: Net, from: Id, id: Id, to: Id)
    requires FinalizedOk(net, from) && net.Has(id) && Fires(net, id) && Finalizes(net, from, id, to)
    ensures var m, r := Number(to) / 180, Number(id) / 180;
            && Number(to) == m * 180 && m < r && net.blocks.OnChain(id, to)
            && (forall k: nat :: m < k < r ==> !JustifiedRound(net, id, k))
            && (JustifiedRound(net, id, m) || m == if Number(from) == 0 then net.finality / 180 else Number(from) / 180)
  {
    hide Number, Round, Checkpoint, Fires, net.RoundQuality, JustifiedRound, FinalizedOk, SearchStart, net.State,
      net.blocks.Ancestor, net.blocks.Valid, net.blocks.OnChain;
    FiringRound(net, id);
    SearchStartIs(net, from);
    var m: nat :| FirstAt(net, id, SearchStart(net, from), net.State(id).quality - 1, m)
      && to == net.blocks.Ancestor(id, m * 180);
    RoundsOf(net, from, id, m);
    NoneBetween(net, id, m, Round(Number(id)));
    if m > Round(SearchStart(net, from)) { QualityOfRound(net, id, m); }
  }

  lemma RoundsOf(net: Net, from: Id, id: Id, m: nat)
    requires net.Has(id)
    ensures Round(Number(id)) == Number(id) / 180 && Round(Number(from)) == Number(from) / 180
    ensures Round(net.finality) == net.finality / 180 && m * 180 / 180 == m
  {
    hide Number;
  }

  /** Between rounds of one quality no round is justified. */
  lemma NoneBetween(net: Net, id: Id, m: nat, r: nat)
    requires net.Has(id) && Round(net.finality) <= m && 0 < r && End(m) <= Number(id) && End(r - 1) <= Number(id)
    requires m < r ==> net.RoundQuality(id, m) == net.RoundQuality(id, r - 1)
    ensures forall k: nat :: m < k < r ==> !JustifiedRound(net, id, k)
  {
    hide Number, Round, net.RoundQuality, JustifiedRound, net.blocks.Ancestor, net.blocks.Valid;
    forall k: nat | m < k < r ensures !JustifiedRound(net, id, k) {
      QualityMonotone(net, id, m, k - 1);
      QualityMonotone(net, id, k, r - 1);
      QualityOfRound(net, id, k);
    }
  }
}
