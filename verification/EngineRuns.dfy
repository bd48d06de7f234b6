/** Runs of the finality engine: any order of blocks on any branches, lost cache entries, restarts. */
module EngineRuns {
  import opened ByteStrings
  import opened BlockTree
  import opened Finality
  import opened Justifier
  import opened Engine

  datatype Op = Compute(id: Id) | Commit(id: Id) | Forget | Restart

  /** Whether the rounds before a block are committed, so that the node may go on with it. */
  predicate Ready(net: Net, qualities: map<Id, nat>, id: Id)
    requires net.blocks.Valid()
  {
    && net.blocks.Has(id)
    && (Number(id) == 0 || Number(id) < net.finality || net.FirstRound(Number(id))
        || (LastOfParentRound(Number(id)) <= Number(id)
            && net.blocks.Ancestor(id, LastOfParentRound(Number(id))) in qualities))
  }

  lemma ReadyIsPrevSaved(net: Net, qualities: map<Id, nat>, id: Id)
    requires net.blocks.Valid() && Ready(net, qualities, id)
    ensures net.Has(id) && PrevSaved(net, qualities, id)
  {
    hide Number, Round, Checkpoint;
  }

  /** What a run has done so far to the engine it started with. */
  ghost predicate Forward(net: Net, from: Id, to: Id, before: map<Id, nat>, after: map<Id, nat>) {
    && net.Has(from) && net.Has(to) && net.blocks.OnChain(to, from)
    && forall id :: id in before ==> id in after && after[id] == before[id]
  }

  /** What a node remembers across restarts: the saved qualities and the finalized checkpoint. */
  datatype Stand = Stand(qualities: map<Id, nat>, finalized: Id)

  ghost predicate MayCommit(net: Net, s: Stand, id: Id)
    requires net.blocks.Valid()
  {
    Ready(net, s.qualities, id) && Number(id) > 0 && Accepted(net, s.finalized, net.blocks.parent[id])
  }

  /** The last block of a round saves the quality of a recount; a round that fires moves finality if it comes later. */
  ghost predicate Committed(net: Net, s: Stand, id: Id, s': Stand)
    requires net.Has(id)
  {
    && s'.qualities ==
         (if StorePoint(Number(id)) == Number(id) then s.qualities[id := net.State(id).quality] else s.qualities)
    && if Fires(net, id) && Number(s.finalized) < Checkpoint(Number(id))
       then Finalizes(net, s.finalized, id, s'.finalized)
       else s'.finalized == s.finalized
  }

  /** One step: a ready block is answered with its recount, a ready and accepted one is committed, no more. */
  ghost predicate Stepped(net: Net, op: Op, s: Stand, s': Stand, answer: Option<BftState>)
    requires net.blocks.Valid()
  {
    match op
    case Compute(id) =>
      s' == s && answer == if Ready(net, s.qualities, id) then Some(net.State(id)) else None
    case Commit(id) =>
      answer.None? && if MayCommit(net, s, id) then Committed(net, s, id, s') else s' == s
    case _ => s' == s && answer.None?
  }

  /** A run as the stands between its steps. */
  ghost predicate Runs(net: Net, ops: seq<Op>, trace: seq<Stand>, answers: seq<Option<BftState>>)
    requires net.blocks.Valid()
  {
    && |trace| == |ops| + 1 && |answers| == |ops|
    && forall i :: 0 <= i < |ops| ==> Stepped(net, ops[i], trace[i], trace[i + 1], answers[i])
  }

  /**
   Every step does what it must, saved qualities never change, and finality only moves forward, whatever
   the caches lose and whenever the node restarts.
   */
  method Run(start: Engine, ops: seq<Op>)
    returns (e: Engine, answers: seq<Option<BftState>>, ghost trace: seq<Stand>)
    requires start.Valid()
    modifies start, start.justifiers.Values
    ensures e.Valid() && e.net == start.net
    ensures Runs(start.net, ops, trace, answers)
    ensures trace[0] == Stand(old(start.qualities), old(start.finalized))
    ensures trace[|ops|] == Stand(e.qualities, e.finalized)
    ensures Forward(start.net, old(start.finalized), e.finalized, old(start.qualities), e.qualities)
  {
    e, answers, trace := start, [], [Stand(start.qualities, start.finalized)];
    assert Runs(start.net, ops[..0], trace, answers);
    hide StoreOk, StatesOk, QualityCacheOk, JustifiersOk, FinalizedOk, PrevSaved, Forward, Runs, Stepped;
    hide start.net.State, Number;
    NoStep(e.net, e.finalized, e.qualities);
    for i := 0 to |ops|
      invariant e.Valid() && e.net == start.net
      invariant e == start || fresh(e)
      invariant fresh(e.justifiers.Values - old(start.justifiers.Values))
      invariant Forward(start.net, old(start.finalized), e.finalized, old(start.qualities), e.qualities)
      invariant |trace| == i + 1 && trace[0] == Stand(old(start.qualities), old(start.finalized))
      invariant trace[i] == Stand(e.qualities, e.finalized) && Runs(start.net, ops[..i], trace, answers)
    {
      var answer: Option<BftState>;
      ghost var s := Stand(e.qualities, e.finalized);
      e, answer := Step(e, ops[i]);
      ghost var s' := Stand(e.qualities, e.finalized);
      ForwardTwice(start.net, old(start.finalized), s.finalized, e.finalized, old(start.qualities), s.qualities,
        e.qualities);
      OneMore(start.net, ops[..i], trace, answers, ops[i], s', answer);
      assert ops[..i + 1] == ops[..i] + [ops[i]];
      answers, trace := answers + [answer], trace + [s'];
    }
    assert ops[..|ops|] == ops;
  }

  method Step(e: Engine, op: Op) returns (e': Engine, answer: Option<BftState>)
    requires e.Valid()
    modifies e, e.justifiers.Values
    ensures e'.Valid() && e'.net == e.net && (e' == e || fresh(e'))
    ensures fresh(e'.justifiers.Values - old(e.justifiers.Values))
    ensures Forward(e.net, old(e.finalized), e'.finalized, old(e.qualities), e'.qualities)
    ensures Stepped(e.net, op, Stand(old(e.qualities), old(e.finalized)), Stand(e'.qualities, e'.finalized), answer)
  {
    e', answer := e, None;
    NoStep(e.net, e.finalized, e.qualities);
    hide StoreOk, StatesOk, QualityCacheOk, JustifiersOk, FinalizedOk, PrevSaved, Forward, Ready, Number, e.net.State;
    hide MayCommit, Committed;
    match op {
      case Compute(id) =>
        if Ready(e.net, e.qualities, id) {
          ReadyIsPrevSaved(e.net, e.qualities, id);
          var st := e.ComputeState(id);
          answer := Some(st);
        }
      case Commit(id) =>
        CommitAccepted(e, id);
      case Forget =>
        e.Evict();
      case Restart =>
        e' := new Engine(e.net, e.qualities, e.stored);
    }
  }

  /** A block is committed if the rounds before it are and its chain is accepted. */
  method CommitAccepted(e: Engine, id: Id)
    requires e.Valid()
    modifies e, e.justifiers.Values
    ensures e.Valid() && fresh(e.justifiers.Values - old(e.justifiers.Values))
    ensures Forward(e.net, old(e.finalized), e.finalized, old(e.qualities), e.qualities)
    ensures var s, s' := Stand(old(e.qualities), old(e.finalized)), Stand(e.qualities, e.finalized);
            if MayCommit(e.net, s, id) then Committed(e.net, s, id, s') else s' == s
  {
    hide StoreOk, StatesOk, QualityCacheOk, JustifiersOk, FinalizedOk, PrevSaved, Forward, Ready, Number, e.net.State;
    hide Accepted, Fires, Finalizes, Checkpoint, StorePoint, e.net.blocks.OnChain, e.net.blocks.Ancestor;
    ghost var s := Stand(e.qualities, e.finalized);
    NoStep(e.net, s.finalized, s.qualities);
    if Ready(e.net, e.qualities, id) && Number(id) > 0 {
      ReadyIsPrevSaved(e.net, e.qualities, id);
      var ok := e.Accepts(e.net.blocks.parent[id]);
      if ok {
        ok := e.CommitBlock(id);
        CommitForward(e.net, s.finalized, e.finalized, s.qualities, e.qualities, id);
      }
    }
  }

  lemma CommitForward(net: Net, from: Id, to: Id, before: map<Id, nat>, after: map<Id, nat>, id: Id)
    requires net.Has(id) && FinalizedOk(net, from) && (to == from || Finalizes(net, from, id, to))
             && StoreOk(net, before)
    requires after == before || after == before[id := net.State(id).quality]
    ensures Forward(net, from, to, before, after)
  {
    hide Number, Checkpoint, net.State;
  }

  lemma NoStep(net: Net, finalized: Id, qualities: map<Id, nat>)
    requires FinalizedOk(net, finalized)
    ensures Forward(net, finalized, finalized, qualities, qualities)
  {
    hide Number;
  }

  lemma ForwardTwice(net: Net, a: Id, b: Id, c: Id, x: map<Id, nat>, y: map<Id, nat>, z: map<Id, nat>)
    requires Forward(net, a, b, x, y) && Forward(net, b, c, y, z)
    ensures Forward(net, a, c, x, z)
  {
    hide Number;
    ChainsNest(net.blocks, c, b, a);
  }

  lemma OneMore(net: Net, ops: seq<Op>, trace: seq<Stand>, answers: seq<Option<BftState>>, op: Op, s: Stand,
                answer: Option<BftState>)
    requires net.blocks.Valid() && Runs(net, ops, trace, answers) && Stepped(net, op, trace[|ops|], s, answer)
    ensures Runs(net, ops + [op], trace + [s], answers + [answer])
  {
    hide Stepped;
  }
}
