/**
 The finality engine (bft/engine.go): vote sets carried along from block to block, cached states, saved
 qualities, and the finalized checkpoint.
 */
module Engine {
  import opened ByteStrings
  import opened BlockTree
  import opened Finality
  import opened Justifier

  // ---- what the engine's data must say ----

  /** The round before has been committed, if its quality matters. */
  ghost predicate PrevSaved(net: Net, qualities: map<Id, nat>, id: Id) {
    net.Counts(id) && !net.FirstRound(Number(id)) ==> net.Concluding(id) in qualities
  }

  /** Saved qualities are those of a recount, and no round is saved before the round it builds on. */
  ghost predicate StoreOk(net: Net, qualities: map<Id, nat>) {
    forall id :: id in qualities ==>
      && net.Has(id) && Number(id) == StorePoint(Number(id))
      && qualities[id] == net.State(id).quality
      && PrevSaved(net, qualities, id)
  }

  ghost predicate StatesOk(net: Net, states: map<Id, BftState>) {
    forall id :: id in states ==> net.Has(id) && states[id] == net.State(id)
  }

  function Saved(qualities: map<Id, nat>, id: Id): nat { if id in qualities then qualities[id] else 0 }

  ghost predicate QualityCacheOk(qualities: map<Id, nat>, cache: map<Id, nat>) {
    forall id :: id in cache ==> cache[id] == Saved(qualities, id)
  }

  /** A justifier holds the votes of the round up to a block. */
  ghost predicate Fits(net: Net, id: Id, js: Justifier)
    reads js
  {
    && net.Counts(id) && js.Valid()
    && js.ballots == net.Ballots(id) && FitsRound(net, id, js)
  }

  ghost predicate FitsRound(net: Net, id: Id, js: Justifier)
    requires net.Counts(id)
  {
    && js.parentQuality == net.ParentQuality(id) && js.checkpoint == Checkpoint(Number(id))
    && js.threshold == net.Threshold(net.Concluding(id))
  }

  /** Justifiers are updated in place, so no two blocks may share one. */
  ghost predicate JustifiersOk(net: Net, cache: map<Id, Justifier>)
    reads cache.Values
  {
    && (forall id :: id in cache ==> Fits(net, id, cache[id]))
    && (forall x, y :: x in cache && y in cache && x != y ==> cache[x] != cache[y])
  }

  /** Where the search for a checkpoint starts. */
  function SearchStart(net: Net, finalized: Id): nat {
    if Number(finalized) == 0 then Checkpoint(net.finality) else Number(finalized)
  }

  ghost predicate FinalizedOk(net: Net, id: Id) {
    net.Has(id) && Checkpoint(Number(id)) == Number(id) && (Number(id) != 0 ==> Number(id) >= Checkpoint(net.finality))
  }

  /** Accepts: a block may only be added on a chain through the finalized checkpoint. */
  ghost predicate Accepted(net: Net, finalized: Id, parent: Id)
    requires net.Has(parent)
  {
    Number(finalized) != 0 ==> net.blocks.OnChain(parent, finalized)
  }

  /** id is the checkpoint of the first round from the start on that reaches the target, and it reaches it exactly. */
  ghost predicate FirstReaching(net: Net, head: Id, start: nat, target: int, id: Id) {
    && net.Has(head)
    && exists m: nat :: FirstAt(net, head, start, target, m) && id == net.blocks.Ancestor(head, m * 180)
  }

  ghost predicate FirstAt(net: Net, head: Id, start: nat, target: int, m: nat)
    requires net.Has(head)
  {
    && Round(start) <= m && End(m) <= Number(head) && net.RoundQuality(head, m) == target
    && forall k: nat :: Round(start) <= k < m ==> net.RoundQuality(head, k) < target
  }

  /** The target lies between the qualities of the first and the last round of the range. */
  ghost predicate WithinReach(net: Net, head: Id, start: nat, target: int) {
    var first, last := Round(start), Round(Number(head));
    && net.Has(head) && End(first) <= Number(head) && End(last) <= Number(head)
    && net.RoundQuality(head, first) <= target <= net.RoundQuality(head, last)
  }

  /** A round ends in a state that finalizes something. */
  ghost predicate Fires(net: Net, id: Id)
    requires net.Has(id)
  {
    StorePoint(Number(id)) == Number(id) && net.State(id).committed && net.State(id).quality > 1
  }

  /** The step of the finalized checkpoint: forward on the committing chain, and to an earlier round. */
  ghost predicate Finalizes(net: Net, from: Id, id: Id, to: Id)
    requires net.Has(id)
  {
    && FinalizedOk(net, to) && net.blocks.OnChain(id, to) && net.blocks.OnChain(to, from)
    && Number(to) < Checkpoint(Number(id))
    && FirstReaching(net, id, SearchStart(net, from), net.State(id).quality - 1, to)
  }

  /** Saved rounds have all their predecessors saved, back to the first round. */
  lemma {:induction false} SavedBelow(net: Net, qualities: map<Id, nat>, head: Id, top: nat, r: nat)
    requires StoreOk(net, qualities) && head in qualities && Number(head) == End(top)
    requires Round(net.finality) <= r <= top
    ensures End(r) <= Number(head) && net.blocks.Ancestor(head, End(r)) in qualities
    decreases top
  {
    assert net.Has(head) && PrevSaved(net, qualities, head);
    hide Number, Round, Checkpoint, StorePoint, StoreOk, net.State;
    if r < top {
      RoundOf(End(top), top);
      RoundCovers(net.finality, r);
      assert net.Counts(head) && !net.FirstRound(Number(head));
      var prev := net.Concluding(head);
      assert prev == net.blocks.Ancestor(head, End(top - 1));
      AncestorOfAncestor(net.blocks, head, End(top - 1), End(r));
      SavedBelow(net, qualities, prev, top - 1, r);
    }
  }

  /** What the parent's chain and the store say about the round before. */
  lemma RoundBefore(net: Net, qualities: map<Id, nat>, id: Id)
    requires StoreOk(net, qualities) && net.Counts(id) && PrevSaved(net, qualities, id)
    ensures var parent, last := net.blocks.parent[id], LastOfParentRound(Number(id));
            && Number(parent) == Number(id) - 1 && last <= Number(parent)
            && net.blocks.Ancestor(parent, last) == net.Concluding(id)
            && net.ParentQuality(id) == if net.FirstRound(Number(id)) then 0 else Saved(qualities, net.Concluding(id))
  {
    hide Number, Checkpoint, Round, net.State;
    StartOf(Number(id));
  }

  class Engine {
    const net: Net
    var qualities: map<Id, nat>          // in the store
    var stored: Option<Id>               // in the store, under its own key
    var finalized: Id
    var states: map<Id, BftState>
    var qualityCache: map<Id, nat>
    var justifiers: map<Id, Justifier>

    ghost predicate Valid()
      reads this, justifiers.Values
    {
      && net.blocks.Valid()
      && StoreOk(net, qualities) && StatesOk(net, states) && QualityCacheOk(qualities, qualityCache)
      && JustifiersOk(net, justifiers)
      && FinalizedOk(net, finalized)
      && finalized == (if stored.Some? then stored.value else net.blocks.genesis)
    }

    /** A new engine, or one that comes back with what the store holds. */
    constructor (net: Net, qualities: map<Id, nat>, stored: Option<Id>)
      requires net.blocks.Valid() && StoreOk(net, qualities)
      requires stored.Some? ==> FinalizedOk(net, stored.value)
      ensures Valid() && this.net == net && this.qualities == qualities && this.stored == stored
      ensures states == map[] && qualityCache == map[] && justifiers == map[]
    {
      this.net, this.qualities, this.stored := net, qualities, stored;
      finalized := if stored.Some? then stored.value else net.blocks.genesis;
      states, qualityCache, justifiers := map[], map[], map[];
    }

    /** Caches may lose entries at any time. */
    method Evict()
      requires Valid()
      modifies `states, `qualityCache, `justifiers
      ensures Valid() && justifiers.Values <= old(justifiers.Values)
    {
      hide StoreOk, FinalizedOk, Fits, net.State, Number;
      var keep: set<Id> := *;
      states := map id | id in states && id in keep :: states[id];
      keep := *;
      qualityCache := map id | id in qualityCache && id in keep :: qualityCache[id];
      keep := *;
      justifiers := map id | id in justifiers && id in keep :: justifiers[id];
    }

    method GetQuality(id: Id) returns (quality: nat)
      requires Valid()
      modifies `qualityCache
      ensures Valid() && quality == Saved(qualities, id)
    {
      hide StoreOk, StatesOk, JustifiersOk, FinalizedOk, Number, net.blocks.Valid;
      if id in qualityCache { return qualityCache[id]; }
      quality := if id in qualities then qualities[id] else 0;
      qualityCache := qualityCache[id := quality];
    }

    /** An empty vote set for the round that the block after the parent belongs to. */
    method NewJustifier(parent: Id, ghost id: Id) returns (js: Justifier)
      requires Valid() && net.Counts(id) && PrevSaved(net, qualities, id) && parent == net.blocks.parent[id]
      modifies `qualityCache
      ensures Valid() && fresh(js) && js.Valid() && js.ballots == {} && FitsRound(net, id, js)
    {
      hide StoreOk, StatesOk, JustifiersOk, FinalizedOk, QualityCacheOk, PrevSaved, Number, Checkpoint, Round;
      hide net.ParentQuality, net.Concluding, net.Threshold, net.blocks.Ancestor, Tally, ComVoters;
      RoundBefore(net, qualities, id);
      var num := Number(parent) + 1;
      var checkpoint := Checkpoint(num);
      var last := net.blocks.Ancestor(parent, if checkpoint > 0 then checkpoint - 1 else 0);
      var threshold := net.Threshold(last);
      var parentQuality := 0;
      if Round(num) != Round(net.finality) {
        parentQuality := GetQuality(last);
      }
      assert num == Number(id) && last == net.Concluding(id) && parentQuality == net.ParentQuality(id);
      js := new Justifier(parentQuality, checkpoint, threshold);
    }

    /** The walk from a block down to `end`, adding each block's vote. */
    method CountVotes(js: Justifier, id: Id, end: nat)
      requires net.Counts(id) && js.Valid()
      requires end == Checkpoint(Number(id)) || (end == Number(id) && js.ballots + {net.VoteOf(id)} == net.Ballots(id))
      requires js.ballots <= net.Ballots(id)
      modifies js
      ensures js.Valid() && js.ballots == net.Ballots(id)
    {
      hide Number, Checkpoint, Voters, ComVoters, Tally, net.Ballots, net.blocks.Valid;
      var h := id;
      while true
        invariant net.Has(h) && js.Valid() && js.ballots + net.Ballots(h) == net.Ballots(id)
        invariant h == id || (end == Checkpoint(Number(id)) == Checkpoint(Number(h)))
        invariant h == id ==> js.ballots == old(js.ballots)
        decreases Number(h)
      {
        BallotsOf(net, h);
        if Number(h) < net.finality { break; }
        js.AddBlock(net.signer(h), net.com(h));
        if Number(h) <= end { break; }
        h := net.blocks.parent[h];
      }
    }

    /** The vote set to go on with: the parent's, which is taken away from the parent, or an empty one. */
    method TakeJustifier(id: Id) returns (js: Justifier, end: nat)
      requires Valid() && net.Counts(id) && PrevSaved(net, qualities, id)
      modifies `qualityCache, `justifiers
      ensures Valid() && justifiers.Values <= old(justifiers.Values) && js !in justifiers.Values
      ensures js in old(justifiers.Values) || fresh(js)
      ensures js.Valid() && FitsRound(net, id, js) && js.ballots <= net.Ballots(id)
      ensures end == Checkpoint(Number(id)) || (end == Number(id) && js.ballots + {net.VoteOf(id)} == net.Ballots(id))
    {
      hide StoreOk, StatesOk, QualityCacheOk, FinalizedOk, JustifiersOk, FitsRound, PrevSaved, Number, Checkpoint,
        Tally, ComVoters;
      hide net.ParentQuality, net.Concluding, net.Ballots;
      var parent := net.blocks.parent[id];
      var isCheckpoint := Checkpoint(Number(id)) == Number(id);
      JustifiersWithout(net, justifiers, parent);
      if parent in justifiers && !isCheckpoint {
        js, end := justifiers[parent], Number(id);
        CarriedOver(net, id, js);
        justifiers := justifiers - {parent};
      } else {
        justifiers := justifiers - {parent};
        js := NewJustifier(parent, id);
        end := js.checkpoint;
        assert end == Checkpoint(Number(id)) by { RoundStart(net, id, js); }
      }
    }

    /** Whatever the caches have kept, the state is that of a full recount. */
    method ComputeState(id: Id) returns (st: BftState)
      requires Valid() && net.Has(id) && PrevSaved(net, qualities, id)
      modifies `states, `qualityCache, `justifiers, justifiers.Values
      ensures Valid() && st == net.State(id) && fresh(justifiers.Values - old(justifiers.Values))
    {
      hide StoreOk, QualityCacheOk, FinalizedOk, JustifiersOk, FitsRound, PrevSaved, Number, Checkpoint, Tally,
        ComVoters;
      hide net.Ballots, net.State, Summary, Voters, net.blocks.Valid;
      if id in states { return states[id]; }
      if Number(id) == 0 || Number(id) < net.finality {
        NoVotesYet(net, id);
        return BftState(0, false, false);
      }
      var js, end := TakeJustifier(id);
      CountVotes(js, id, end);
      st := js.Summarize();
      Recounted(net, id, js);
      states := states[id := st];
      JustifiersWith(net, justifiers, id, js);
      justifiers := justifiers[id := js];
    }

    /**
     Binary search over the rounds of a chain.  It succeeds exactly when the target lies between the
     qualities at both ends of the range.
     */
    method FindCheckpointByQuality(target: nat, from: Id, head: Id) returns (r: Option<Id>)
      requires Valid() && head in qualities && FinalizedOk(net, from) && net.Has(head) && net.blocks.OnChain(head, from)
      requires SearchStart(net, from) <= Number(head)
      modifies `qualityCache
      ensures Valid()
      ensures r.Some? <==> WithinReach(net, head, SearchStart(net, from), target)
      ensures r.Some? ==> FirstReaching(net, head, SearchStart(net, from), target, r.value)
    {
      hide StoreOk, StatesOk, QualityCacheOk, JustifiersOk, FinalizedOk, Number, SearchStart, Checkpoint, Round,
        net.RoundQuality;
      hide Rounds, InRangeAt, Missed, Reached, WithinReach, FirstReaching, End, net.blocks.Ancestor;
      var start := SearchStart(net, from);
      RangeOf(net, qualities, from, head);
      var n := Rounds(start, Number(head));
      var i, j := 0, n;
      assert Missed(net, head, start, 0, target) by { NothingMissed(net, head, start, target); }
      while i < j
        invariant 0 <= i <= j <= n && Valid()
        invariant Missed(net, head, start, i, target)
        invariant j < n ==> Reached(net, head, start, j, target)
      {
        var mid := (i + j) / 2;
        assert InRangeAt(net, qualities, head, start, mid);
        var quality := QualityAt(head, start, mid);
        Probe(net, head, start, mid, target);
        if quality >= target { j := mid; } else { i := mid + 1; }
      }
      if i == n {
        NoneReaches(net, head, start, n, target);
        return None;
      }
      assert InRangeAt(net, qualities, head, start, i);
      var quality := QualityAt(head, start, i);
      SearchEnds(net, head, start, target, i);
      if quality != target { return None; }
      r := Some(net.blocks.Ancestor(head, start + i * 180));
    }

    /** The quality of round i of the range. */
    method QualityAt(head: Id, start: nat, i: nat) returns (quality: nat)
      requires Valid() && head in qualities && net.Has(head) && InRangeAt(net, qualities, head, start, i)
      modifies `qualityCache
      ensures Valid() && End(Round(start) + i) <= Number(head) && quality == net.RoundQuality(head, Round(start) + i)
    {
      hide StoreOk, StatesOk, QualityCacheOk, JustifiersOk, FinalizedOk, Number, StorePoint, Round, End,
        net.RoundQuality;
      var id := net.blocks.Ancestor(head, StorePoint(start + i * 180));
      quality := GetQuality(id);
    }

    method Accepts(parent: Id) returns (ok: bool)
      requires Valid() && net.Has(parent)
      ensures ok <==> Accepted(net, finalized, parent)
    {
      if Number(finalized) == 0 { return true; }
      ok := Number(finalized) <= Number(parent) && net.blocks.Ancestor(parent, Number(finalized)) == finalized;
    }

    method SaveQuality(id: Id, quality: nat)
      requires Valid() && net.Has(id) && PrevSaved(net, qualities, id)
      requires StorePoint(Number(id)) == Number(id) && quality == net.State(id).quality
      modifies `qualities, `qualityCache
      ensures Valid() && qualities == old(qualities)[id := quality]
    {
      hide StoreOk, StatesOk, QualityCacheOk, JustifiersOk, FinalizedOk, PrevSaved, Number, StorePoint, net.State,
        net.blocks.Valid;
      SaveKeeps(net, qualities, qualityCache, id, quality);
      qualities := qualities[id := quality];
      qualityCache := qualityCache[id := quality];
    }

    method Finalize(id: Id)
      requires Valid() && FinalizedOk(net, id)
      modifies `stored, `finalized
      ensures Valid() && finalized == id
    {
      hide StoreOk, StatesOk, QualityCacheOk, JustifiersOk, FinalizedOk, net.blocks.Valid;
      stored := Some(id);
      finalized := id;
    }

    /**
     At the last block of a round the quality is saved, and a committed round finalizes an earlier
     checkpoint.  It fails exactly when the finalized checkpoint is that of the round itself; the quality
     stays saved then.
     */
    method CommitBlock(id: Id) returns (ok: bool)
      requires Valid() && net.Has(id) && Number(id) > 0 && PrevSaved(net, qualities, id)
      requires Accepted(net, finalized, net.blocks.parent[id])
      modifies this, justifiers.Values
      ensures Valid() && fresh(justifiers.Values - old(justifiers.Values))
      ensures qualities == if StorePoint(Number(id)) == Number(id) then old(qualities)[id := net.State(id).quality]
                           else old(qualities)
      ensures ok <==> (Fires(net, id) ==> Number(old(finalized)) < Checkpoint(Number(id)))
      ensures if Fires(net, id) && ok then Finalizes(net, old(finalized), id, finalized)
              else finalized == old(finalized)
    {
      hide StoreOk, StatesOk, QualityCacheOk, JustifiersOk, FinalizedOk, PrevSaved, Number, Checkpoint, net.State;
      hide net.blocks.Valid, net.blocks.OnChain, Accepted, SearchStart, WithinReach, FirstReaching, StorePoint;
      if StorePoint(Number(id)) != Number(id) { return true; }
      var st := ComputeState(id);
      SaveQuality(id, st.quality);
      if !st.committed || st.quality <= 1 { return true; }
      var from := finalized;
      CommitSearch(net, from, id);
      var found := FindCheckpointByQuality(st.quality - 1, from, id);
      if found.None? { return false; }
      CommitFinds(net, from, id, found.value);
      Finalize(found.value);
      ok := true;
    }
  }

  /** How many rounds there are from a checkpoint to a height. */
  function Rounds(start: nat, top: nat): (n: nat)
    requires start <= top
    ensures n > 0
  {
    (top - start) / 180 + 1
  }

  /** Round i of a search is saved. */
  ghost predicate InRangeAt(net: Net, qualities: map<Id, nat>, head: Id, start: nat, i: nat)
    requires net.Has(head)
  {
    && StorePoint(start + i * 180) == End(Round(start) + i) <= Number(head)
    && start + i * 180 == (Round(start) + i) * 180
    && Saved(qualities, net.blocks.Ancestor(head, End(Round(start) + i))) == net.RoundQuality(head, Round(start) + i)
  }

  lemma RangeOf(net: Net, qualities: map<Id, nat>, from: Id, head: Id)
    requires StoreOk(net, qualities) && head in qualities && FinalizedOk(net, from) && net.Has(head)
    requires SearchStart(net, from) <= Number(head)
    ensures var start := SearchStart(net, from);
            && Round(start) + Rounds(start, Number(head)) - 1 == Round(Number(head))
            && End(Round(Number(head))) == Number(head)
            && Round(net.finality) <= Round(start) && start == Round(start) * 180
            && forall i: nat :: i < Rounds(start, Number(head)) ==> InRangeAt(net, qualities, head, start, i)
  {
    hide StoreOk, Number, Checkpoint, StorePoint, Round, Rounds, FinalizedOk, SearchStart, net.State;
    var start, top: nat := SearchStart(net, from), Number(head);
    StartIsCheckpoint(net, from);
    SavedIsRecount(net, qualities, head);
    RangeArithmetic(start, top);
    hide InRangeAt;
    forall i: nat | i < Rounds(start, top) ensures InRangeAt(net, qualities, head, start, i) {
      RangeAt(net, qualities, head, start, i);
    }
  }

  lemma RangeAt(net: Net, qualities: map<Id, nat>, head: Id, start: nat, i: nat)
    requires StoreOk(net, qualities) && head in qualities && net.Has(head)
    requires start == Round(start) * 180 && End(Round(Number(head))) == Number(head)
    requires Round(net.finality) <= Round(start) + i <= Round(Number(head))
    ensures InRangeAt(net, qualities, head, start, i)
  {
    hide StoreOk, Number, Checkpoint, StorePoint, Round, net.State, net.blocks.Ancestor;
    var r := Round(start) + i;
    assert start + i * 180 == r * 180;
    RoundOf(r * 180, r);
    hide End, Saved;
    SavedBelow(net, qualities, head, Round(Number(head)), r);
    SavedIsRecount(net, qualities, net.blocks.Ancestor(head, End(r)));
    assert Saved(qualities, net.blocks.Ancestor(head, End(r))) == net.RoundQuality(head, r);
    hide net.RoundQuality;
  }

  lemma SavedIsRecount(net: Net, qualities: map<Id, nat>, id: Id)
    requires StoreOk(net, qualities) && id in qualities
    ensures net.Has(id) && Saved(qualities, id) == net.State(id).quality && Number(id) == StorePoint(Number(id))
  {}

  lemma StartIsCheckpoint(net: Net, from: Id)
    requires FinalizedOk(net, from)
    ensures var start := SearchStart(net, from); Checkpoint(start) == start && Round(net.finality) <= Round(start)
  {
    hide Number;
  }

  lemma RangeArithmetic(start: nat, top: nat)
    requires Checkpoint(start) == start <= top == StorePoint(top)
    ensures Round(start) + Rounds(start, top) - 1 == Round(top) && End(Round(top)) == top
    ensures start == Round(start) * 180
  {
  }

  ghost predicate Reached(net: Net, head: Id, start: nat, i: nat, target: nat) {
    net.Has(head) && End(Round(start) + i) <= Number(head) && net.RoundQuality(head, Round(start) + i) >= target
  }

  /** The first i rounds stay below the target. */
  ghost predicate Missed(net: Net, head: Id, start: nat, i: nat, target: nat) {
    && net.Has(head)
    && forall k: nat :: Round(start) <= k < Round(start) + i ==>
         End(k) <= Number(head) && net.RoundQuality(head, k) < target
  }

  lemma NothingMissed(net: Net, head: Id, start: nat, target: nat)
    requires net.Has(head)
    ensures Missed(net, head, start, 0, target)
  {}

  lemma Probe(net: Net, head: Id, start: nat, i: nat, target: nat)
    requires net.Has(head) && Round(net.finality) <= Round(start) && End(Round(start) + i) <= Number(head)
    ensures if net.RoundQuality(head, Round(start) + i) >= target then Reached(net, head, start, i, target)
            else Missed(net, head, start, i + 1, target)
  {
    hide net.RoundQuality, Round, Number;
    var m := Round(start) + i;
    if net.RoundQuality(head, m) < target {
      forall k: nat | Round(start) <= k <= m ensures End(k) <= Number(head) && net.RoundQuality(head, k) < target {
        QualityMonotone(net, head, k, m);
      }
    }
  }

  /** The search came to the end of the range. */
  lemma NoneReaches(net: Net, head: Id, start: nat, n: nat, target: nat)
    requires net.Has(head) && Round(start) + n - 1 == Round(Number(head)) && n > 0
             && End(Round(Number(head))) == Number(head)
    requires Missed(net, head, start, n, target)
    ensures !WithinReach(net, head, start, target)
  {
    hide net.RoundQuality, Round, Number;
  }

  /** The search stopped at round i: either its quality is the target, or the range starts above the target. */
  lemma SearchEnds(net: Net, head: Id, start: nat, target: nat, i: nat)
    requires net.Has(head) && Round(net.finality) <= Round(start) && Round(start) + i <= Round(Number(head))
    requires End(Round(Number(head))) == Number(head) && start == Round(start) * 180
    requires Missed(net, head, start, i, target) && Reached(net, head, start, i, target)
    ensures WithinReach(net, head, start, target) <==> net.RoundQuality(head, Round(start) + i) == target
    ensures start + i * 180 <= Number(head)
    ensures net.RoundQuality(head, Round(start) + i) == target ==>
              FirstReaching(net, head, start, target, net.blocks.Ancestor(head, start + i * 180))
  {
    hide net.RoundQuality, Round, Number, FirstReaching, net.blocks.Ancestor, net.blocks.Valid;
    var first, m, last := Round(start), Round(start) + i, Round(Number(head));
    if net.RoundQuality(head, m) == target {
      FoundFirst(net, head, start, target, m);
      QualityMonotone(net, head, m, last);
      QualityMonotone(net, head, first, m);
    } else if i > 0 {
      assert net.RoundQuality(head, m - 1) < target;
      QualityStep(net, head, m - 1);
    }
  }

  lemma FoundFirst(net: Net, head: Id, start: nat, target: nat, m: nat)
    requires net.Has(head) && Round(start) <= m && End(m) <= Number(head) && net.RoundQuality(head, m) == target
    requires Missed(net, head, start, m - Round(start), target)
    ensures FirstReaching(net, head, start, target, net.blocks.Ancestor(head, m * 180))
  {
    hide net.RoundQuality, Round, Number, net.blocks.Ancestor;
    assert FirstAt(net, head, start, target, m);
  }

  lemma SaveKeeps(net: Net, qualities: map<Id, nat>, cache: map<Id, nat>, id: Id, quality: nat)
    requires StoreOk(net, qualities) && QualityCacheOk(qualities, cache) && net.Has(id) && PrevSaved(net, qualities, id)
    requires StorePoint(Number(id)) == Number(id) && quality == net.State(id).quality
    ensures StoreOk(net, qualities[id := quality]) && QualityCacheOk(qualities[id := quality], cache[id := quality])
  {
    hide Number, StorePoint, net.State, PrevSaved;
    var qualities' := qualities[id := quality];
    forall x | x in qualities' ensures PrevSaved(net, qualities', x) {
      PrevStaysSaved(net, qualities, qualities', x);
    }
  }

  lemma PrevStaysSaved(net: Net, qualities: map<Id, nat>, qualities': map<Id, nat>, x: Id)
    requires PrevSaved(net, qualities, x) && qualities.Keys <= qualities'.Keys
    ensures PrevSaved(net, qualities', x)
  {
    hide Number;
  }

  /** The rounds at the end of a chain that finalizes something. */
  lemma FiringRound(net: Net, id: Id)
    requires net.Has(id) && Fires(net, id)
    ensures net.Counts(id)
    ensures var r := Round(Number(id));
            && Number(id) == End(r) && Checkpoint(Number(id)) == r * 180 && Round(net.finality) < r
            && net.RoundQuality(id, r) == net.State(id).quality
            && net.RoundQuality(id, r - 1) == net.State(id).quality - 1
  {
    hide Number, Round, Checkpoint;
    FiringCounts(net, id);
    CommittedFollows(net, id);
    FiringArithmetic(net.finality, Number(id));
    hide net.State;
  }

  lemma FiringCounts(net: Net, id: Id)
    requires net.Has(id) && Fires(net, id)
    ensures net.Counts(id)
  {}

  lemma FiringArithmetic(finality: nat, n: nat)
    requires StorePoint(n) == n >= finality
    ensures n == End(Round(n)) && Checkpoint(n) == Round(n) * 180 && Round(finality) <= Round(n)
    ensures Round(n) > 0 ==> LastOfParentRound(n) == End(Round(n) - 1)
  {}

  /** The finalized checkpoint is on every accepted chain. */
  lemma AcceptedOnChain(net: Net, from: Id, id: Id)
    requires FinalizedOk(net, from) && net.Has(id) && Number(id) > 0 && Accepted(net, from, net.blocks.parent[id])
    ensures net.blocks.OnChain(id, from) && Number(from) <= Number(id)
  {
    hide Number, Checkpoint;
    if Number(from) == 0 { AncestorIsGenesis(net.blocks, id); }
  }

  lemma SearchStartIs(net: Net, from: Id)
    requires FinalizedOk(net, from)
    ensures var start := SearchStart(net, from);
            && start == Round(start) * 180 && Number(from) <= start && Round(net.finality) <= Round(start)
            && (Number(from) == 0 ==> Round(start) == Round(net.finality))
            && (Number(from) != 0 ==> start == Number(from))
  {
    hide Number;
  }

  /** The search of a commit is in order, and it fails in the round of the finalized checkpoint itself. */
  lemma CommitSearch(net: Net, from: Id, id: Id)
    requires FinalizedOk(net, from) && net.Has(id) && Number(id) > 0 && Accepted(net, from, net.blocks.parent[id])
             && Fires(net, id)
    ensures net.blocks.OnChain(id, from) && SearchStart(net, from) <= Number(id)
    ensures WithinReach(net, id, SearchStart(net, from), net.State(id).quality - 1)
            <==> Number(from) < Checkpoint(Number(id))
  {
    hide Number, Round, Checkpoint, SearchStart, Fires, FinalizedOk, net.State, net.RoundQuality, net.Counts;
    hide net.blocks.Valid, net.blocks.Ancestor, net.blocks.OnChain, Accepted;
    AcceptedOnChain(net, from, id);
    FiringRound(net, id);
    SearchStartIs(net, from);
    var first, last := Round(SearchStart(net, from)), Round(Number(id));
    if first < last {
      QualityMonotone(net, id, first, last - 1);
    }
  }

  /** What the search finds is a step forward. */
  lemma CommitFinds(net: Net, from: Id, id: Id, to: Id)
    requires FinalizedOk(net, from) && net.Has(id) && Fires(net, id) && net.blocks.OnChain(id, from)
    requires FirstReaching(net, id, SearchStart(net, from), net.State(id).quality - 1, to)
    ensures Finalizes(net, from, id, to)
  {
    hide Number, Round, Checkpoint, SearchStart, Fires, net.State, net.RoundQuality, net.Counts, net.blocks.Valid,
      net.blocks.Ancestor;
    var m: nat :| FirstAt(net, id, SearchStart(net, from), net.State(id).quality - 1, m)
      && to == net.blocks.Ancestor(id, m * 180);
    assert m < Round(Number(id)) && Round(SearchStart(net, from)) <= m by { FiringRound(net, id); }
    assert Number(to) == m * 180 < Checkpoint(Number(id)) by { FiringRound(net, id); }
    hide FirstAt;
    SearchStartIs(net, from);
    CheckpointAt(net.finality, m);
    AncestorOfAncestor(net.blocks, id, m * 180, Number(from));
  }

  lemma CheckpointAt(finality: nat, m: nat)
    ensures Checkpoint(m * 180) == m * 180 && (Round(finality) <= m ==> Checkpoint(finality) <= m * 180)
  {}

  lemma BallotsOf(net: Net, h: Id)
    requires net.Has(h)
    ensures var n := Number(h);
            if n < net.finality then net.Ballots(h) == {}
            else if n <= Checkpoint(n) then net.Ballots(h) == {net.VoteOf(h)}
            else h in net.blocks.parent && var p := net.blocks.parent[h];
                 && net.Has(p) && Number(p) == n - 1 && Checkpoint(n - 1) == Checkpoint(n)
                 && net.Ballots(h) == net.Ballots(p) + {net.VoteOf(h)}
  {
    hide Number;
    StartOf(Number(h));
  }

  lemma NoVotesYet(net: Net, id: Id)
    requires net.Has(id) && (Number(id) == 0 || Number(id) < net.finality)
    ensures net.State(id) == BftState(0, false, false)
  {}

  lemma Recounted(net: Net, id: Id, js: Justifier)
    requires net.Counts(id) && FitsRound(net, id, js) && js.ballots == net.Ballots(id)
    ensures Summary(js.parentQuality, js.threshold, js.ballots) == net.State(id)
  {}

  lemma RoundStart(net: Net, id: Id, js: Justifier)
    requires net.Counts(id) && FitsRound(net, id, js)
    ensures js.checkpoint == Checkpoint(Number(id))
  {}

  lemma JustifiersWithout(net: Net, cache: map<Id, Justifier>, id: Id)
    requires JustifiersOk(net, cache)
    ensures JustifiersOk(net, cache - {id}) && (cache - {id}).Values <= cache.Values
    ensures id in cache ==> Fits(net, id, cache[id]) && cache[id] !in (cache - {id}).Values
  {
    hide Fits;
  }

  lemma JustifiersWith(net: Net, cache: map<Id, Justifier>, id: Id, js: Justifier)
    requires JustifiersOk(net, cache) && js !in cache.Values && Fits(net, id, js)
    ensures JustifiersOk(net, cache[id := js]) && cache[id := js].Values <= cache.Values + {js}
  {
    hide Fits;
  }

  /** The justifier of the parent serves the next block of the same round. */
  lemma CarriedOver(net: Net, id: Id, js: Justifier)
    requires net.Counts(id) && Fits(net, net.blocks.parent[id], js) && Checkpoint(Number(id)) != Number(id)
    ensures FitsRound(net, id, js) && js.ballots + {net.VoteOf(id)} == net.Ballots(id)
  {
    hide Number, Checkpoint, Round, LastOfParentRound, Tally, ComVoters, net.State;
    StartOf(Number(id));
  }
}
