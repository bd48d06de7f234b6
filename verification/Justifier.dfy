/** Counting the votes of one round (bft/justifier.go). */
module Justifier {
  import opened ByteStrings

  type Address = Bytes

  /** The vote a block casts: who signed it and whether it says COM. */
  datatype Vote = Vote(signer: Address, com: bool)

  datatype BftState = BftState(quality: nat, justified: bool, committed: bool)

  // ---- what a set of votes says ----

  ghost function Voters(s: set<Vote>): set<Address> { set v | v in s :: v.signer }

  /** Those who never voted anything but COM. */
  ghost function ComVoters(s: set<Vote>): set<Address> { set a | a in Voters(s) && Vote(a, false) !in s }

  ghost function Tally(s: set<Vote>): map<Address, bool> { map a | a in Voters(s) :: Vote(a, false) !in s }

  ghost function Summary(parentQuality: nat, threshold: nat, s: set<Vote>): BftState {
    var justified := |Voters(s)| > threshold;
    BftState(parentQuality + (if justified then 1 else 0), justified, |ComVoters(s)| > threshold)
  }

  lemma SubsetSize<T>(a: set<T>, b: set<T>)
    requires a <= b
    ensures |a| <= |b|
  {
    assert b == a + (b - a);
  }

  lemma CommittedIsJustified(parentQuality: nat, threshold: nat, s: set<Vote>)
    ensures var st := Summary(parentQuality, threshold, s); st.committed ==> st.justified
  {
    SubsetSize(ComVoters(s), Voters(s));
  }

  /**
   Two committed sets of votes share more than a third of n as COM voters, where n is the proposer limit
   that gives the threshold and at most n proposers vote.
   */
  lemma QuorumOverlap(proposers: set<Address>, n: nat, s: set<Vote>, t: set<Vote>, q: nat, r: nat)
    requires Voters(s) <= proposers && Voters(t) <= proposers && |proposers| <= n
    requires Summary(q, n * 2 / 3, s).committed && Summary(r, n * 2 / 3, t).committed
    ensures 3 * |ComVoters(s) * ComVoters(t)| > n
  {
    var a, b := ComVoters(s), ComVoters(t);
    SubsetSize(a + b, proposers);
  }

  class Justifier {
    const parentQuality: nat
    const checkpoint: nat
    const threshold: nat
    var votes: map<Address, bool>
    var comVotes: nat
    ghost var ballots: set<Vote>

    ghost predicate Valid()
      reads this
    {
      votes == Tally(ballots) && comVotes == |ComVoters(ballots)|
    }

    constructor (parentQuality: nat, checkpoint: nat, threshold: nat)
      ensures Valid() && ballots == {}
      ensures this.parentQuality == parentQuality && this.checkpoint == checkpoint && this.threshold == threshold
    {
      this.parentQuality, this.checkpoint, this.threshold := parentQuality, checkpoint, threshold;
      votes, comVotes, ballots := map[], 0, {};
    }

    /** The order of the votes does not matter: the new tally is that of the votes as a set. */
    method AddBlock(signer: Address, isCOM: bool)
      requires Valid()
      modifies this
      ensures Valid() && ballots == old(ballots) + {Vote(signer, isCOM)}
    {
      AddVote(ballots, Vote(signer, isCOM));
      if signer !in votes {
        votes := votes[signer := isCOM];
        if isCOM { comVotes := comVotes + 1; }
      } else if votes[signer] != isCOM {
        if votes[signer] { comVotes := comVotes - 1; }
        votes := votes[signer := false];
      }
      ballots := ballots + {Vote(signer, isCOM)};
    }

    method Summarize() returns (st: BftState)
      requires Valid()
      ensures st == Summary(parentQuality, threshold, ballots)
    {
      assert votes.Keys == Voters(ballots);
      var justified := |votes.Keys| > threshold;
      st := BftState(if justified then parentQuality + 1 else parentQuality, justified, comVotes > threshold);
    }
  }

  /** Whether a signer counts as a COM voter once the vote v is in. */
  ghost predicate CountsWith(s: set<Vote>, v: Vote) { v.com && (v.signer in Voters(s) ==> Vote(v.signer, false) !in s) }

  lemma AddVote(s: set<Vote>, v: Vote)
    ensures Tally(s + {v}) == Tally(s)[v.signer := CountsWith(s, v)]
    ensures ComVoters(s + {v}) == if CountsWith(s, v) then ComVoters(s) + {v.signer} else ComVoters(s) - {v.signer}
    ensures v.signer in ComVoters(s) ==> |ComVoters(s)| >= 1
  {
    var s' := s + {v};
    VotersAdd(s, v);
    VoterOf(s, Vote(v.signer, false));
    hide Voters;
    forall a ensures a in Tally(s') <==> a in Tally(s)[v.signer := CountsWith(s, v)] {}
    forall a | a in Tally(s') ensures Tally(s')[a] == Tally(s)[v.signer := CountsWith(s, v)][a] {}
    var after := if CountsWith(s, v) then ComVoters(s) + {v.signer} else ComVoters(s) - {v.signer};
    forall a ensures a in ComVoters(s') <==> a in after {}
    if v.signer in ComVoters(s) { SubsetSize({v.signer}, ComVoters(s)); }
  }

  lemma VotersAdd(s: set<Vote>, v: Vote)
    ensures Voters(s + {v}) == Voters(s) + {v.signer}
  {
  }

  lemma VoterOf(s: set<Vote>, v: Vote)
    ensures v in s ==> v.signer in Voters(s)
  {
  }
}
