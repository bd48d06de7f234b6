/**
 A stack of maps with a per-key revision index and a journal (stackedmap/stackedmap.go).
 */
module StackedMap {
  import opened ByteStrings

  /** A key and a value that was put for it. */
  datatype Change<K, V> = Change(key: K, value: V)

  datatype Level<!K, V> = Level(kvs: map<K, V>, journal: seq<Change<K, V>>)

  /** What a lookup in the source may answer: a value, nothing, or an error. */
  datatype Got<V> = Got(value: V) | Absent | Failed

  type Stack<!K, V> = seq<Level<K, V>>

  // ---- what a stack of maps means ----

  /** The value of the topmost level that holds the key, or else the source. */
  function Read<K, V>(s: Stack<K, V>, src: K -> Got<V>, k: K): Got<V> {
    if s == [] then src(k)
    else if k in s[|s| - 1].kvs then Got(s[|s| - 1].kvs[k])
    else Read(s[..|s| - 1], src, k)
  }

  /** The levels that hold a key, bottom up. */
  function Holding<K, V>(s: Stack<K, V>, k: K): seq<nat> {
    if s == [] then []
    else Holding(s[..|s| - 1], k) + if k in s[|s| - 1].kvs then [|s| - 1] else []
  }

  function Journal<K, V>(s: Stack<K, V>): seq<Change<K, V>> {
    if s == [] then [] else Journal(s[..|s| - 1]) + s[|s| - 1].journal
  }

  /** The last value put for a key. */
  function Last<K(==), V>(j: seq<Change<K, V>>, k: K): Option<V> {
    if j == [] then None
    else if j[|j| - 1].key == k then Some(j[|j| - 1].value)
    else Last(j[..|j| - 1], k)
  }

  /** A level's map is what its journal leaves behind. */
  ghost predicate LevelOk<K(!new), V>(l: Level<K, V>) {
    forall k: K :: Last(l.journal, k) == if k in l.kvs then Some(l.kvs[k]) else None
  }

  ghost predicate LevelsOk<K(!new), V>(s: Stack<K, V>) {
    forall i :: 0 <= i < |s| ==> LevelOk(s[i])
  }

  ghost predicate IndexOk<K(!new), V>(s: Stack<K, V>, revs: map<K, seq<nat>>) {
    forall k: K :: if k in revs then revs[k] == Holding(s, k) && revs[k] != [] else Holding(s, k) == []
  }

  // ---- the stack operations on values ----

  function PushTo<K, V>(s: Stack<K, V>): Stack<K, V> { s + [Level(map[], [])] }

  function PopTo<K, V>(s: Stack<K, V>, depth: nat): Stack<K, V> { if depth < |s| then s[..depth] else s }

  function PutTop<K, V>(s: Stack<K, V>, k: K, v: V): Stack<K, V>
    requires s != []
  {
    var top := s[|s| - 1];
    s[|s| - 1 := Level(top.kvs[k := v], top.journal + [Change(k, v)])]
  }

  lemma LastOfAppend<K, V>(a: seq<Change<K, V>>, b: seq<Change<K, V>>, k: K)
    ensures Last(a + b, k) == if Last(b, k).Some? then Last(b, k) else Last(a, k)
  {
    if b == [] {
      assert a + b == a;
    } else {
      assert (a + b)[..|a + b| - 1] == a + b[..|b| - 1];
      LastOfAppend(a, b[..|b| - 1], k);
    }
  }

  /** A read is the last journal entry of the key, or else the source. */
  lemma {:induction false} ReadIsLast<K(!new), V>(s: Stack<K, V>, src: K -> Got<V>, k: K)
    requires LevelsOk(s)
    ensures Read(s, src, k) == match Last(Journal(s), k) case Some(v) => Got(v) case None => src(k)
  {
    if s != [] {
      var top := s[|s| - 1];
      assert LevelOk(top);
      ReadIsLast(s[..|s| - 1], src, k);
      LastOfAppend(Journal(s[..|s| - 1]), top.journal, k);
    }
  }

  lemma {:induction false} HoldingBelow<K, V>(s: Stack<K, V>, k: K)
    ensures forall i :: 0 <= i < |Holding(s, k)| ==> Holding(s, k)[i] < |s| && k in s[Holding(s, k)[i]].kvs
  {
    if s != [] { HoldingBelow(s[..|s| - 1], k); }
  }

  /** The revision index leads to the level a read comes from. */
  lemma {:induction false} ReadByIndex<K, V>(s: Stack<K, V>, src: K -> Got<V>, k: K)
    ensures var h := Holding(s, k);
            Read(s, src, k) ==
              if h == [] then src(k)
              else (HoldingBelow(s, k); Got(s[h[|h| - 1]].kvs[k]))
  {
    HoldingBelow(s, k);
    if s != [] {
      HoldingBelow(s[..|s| - 1], k);
      ReadByIndex(s[..|s| - 1], src, k);
    }
  }

  lemma PutTopOk<K(!new), V>(s: Stack<K, V>, k: K, v: V)
    requires s != [] && LevelsOk(s)
    ensures LevelsOk(PutTop(s, k, v))
    ensures Journal(PutTop(s, k, v)) == Journal(s) + [Change(k, v)]
  {
    var top, s' := s[|s| - 1], PutTop(s, k, v);
    assert s'[..|s| - 1] == s[..|s| - 1];
    forall x: K
      ensures Last(top.journal + [Change(k, v)], x) == if x in top.kvs[k := v] then Some(top.kvs[k := v][x]) else None
    {
      LastOfAppend(top.journal, [Change(k, v)], x);
      assert Last([Change(k, v)], x) == if x == k then Some(v) else None by {
        assert [Change(k, v)][..0] == [];
      }
    }
    assert LevelOk(s'[|s| - 1]);
  }

  lemma PutTopReads<K, V>(s: Stack<K, V>, src: K -> Got<V>, k: K, v: V, x: K)
    requires s != []
    ensures Read(PutTop(s, k, v), src, x) == if x == k then Got(v) else Read(s, src, x)
  {
    assert PutTop(s, k, v)[..|s| - 1] == s[..|s| - 1];
  }

  lemma PutTopHolding<K, V>(s: Stack<K, V>, k: K, v: V, x: K)
    requires s != []
    ensures var h := Holding(s, k);
            Holding(PutTop(s, k, v), x) ==
              if x != k then Holding(s, x)
              else if h != [] && h[|h| - 1] == |s| - 1 then h else h + [|s| - 1]
  {
    assert PutTop(s, k, v)[..|s| - 1] == s[..|s| - 1];
    HoldingBelow(s[..|s| - 1], k);
  }

  /** The index after a put: the top level is listed for the key, once. */
  function PutRevs<K, V>(s: Stack<K, V>, revs: map<K, seq<nat>>, k: K): map<K, seq<nat>>
    requires s != []
  {
    var rev := |s| - 1;
    if k !in revs then revs[k := [rev]]
    else if revs[k] != [] && revs[k][|revs[k]| - 1] == rev then revs
    else revs[k := revs[k] + [rev]]
  }

  lemma PutIndexOk<K(!new), V>(s: Stack<K, V>, revs: map<K, seq<nat>>, k: K, v: V)
    requires s != [] && IndexOk(s, revs)
    ensures IndexOk(PutTop(s, k, v), PutRevs(s, revs, k))
    ensures k in revs ==> revs[k] != []
  {
    hide Holding, PutTop;
    var s', revs' := PutTop(s, k, v), PutRevs(s, revs, k);
    forall x: K ensures if x in revs' then revs'[x] == Holding(s', x) && revs'[x] != [] else Holding(s', x) == [] {
      PutTopHolding(s, k, v, x);
    }
  }

  lemma PushReads<K, V>(s: Stack<K, V>, src: K -> Got<V>, k: K)
    ensures Read(PushTo(s), src, k) == Read(s, src, k)
    ensures Holding(PushTo(s), k) == Holding(s, k)
    ensures Journal(PushTo(s)) == Journal(s)
  {
    assert PushTo(s)[..|s|] == s;
  }

  class StackedMap<K(==, !new), V(==)> {
    const src: K -> Got<V>
    var mapStack: Stack<K, V>
    var keyRevisionMap: map<K, seq<nat>>

    ghost predicate Valid()
      reads this
    {
      LevelsOk(mapStack) && IndexOk(mapStack, keyRevisionMap)
    }

    constructor (src: K -> Got<V>)
      ensures Valid() && this.src == src && mapStack == [Level(map[], [])]
    {
      this.src, mapStack, keyRevisionMap := src, [Level(map[], [])], map[];
    }

    method Push() returns (depth: nat)
      requires Valid()
      modifies this
      ensures Valid() && mapStack == PushTo(old(mapStack)) && depth == |old(mapStack)|
    {
      forall k: K ensures Holding(PushTo(mapStack), k) == Holding(mapStack, k) { PushReads(mapStack, src, k); }
      mapStack := mapStack + [Level(map[], [])];
      depth := |mapStack| - 1;
    }

    /** Pop takes the top level off and its keys out of the index, in whatever order the map yields them. */
    method Pop()
      requires Valid() && mapStack != []
      modifies this
      ensures Valid() && mapStack == old(mapStack)[..|old(mapStack)| - 1]
    {
      ghost var s, below := mapStack, mapStack[..|mapStack| - 1];
      var top := mapStack[|mapStack| - 1];
      var keys := top.kvs.Keys;
      while keys != {}
        invariant keys <= top.kvs.Keys && mapStack == s
        invariant forall k: K :: PoppedOk(s, keyRevisionMap, keys, k)
        decreases keys
      {
        var key :| key in keys;
        assert PoppedOk(s, keyRevisionMap, keys, key);
        var revs := keyRevisionMap[key];
        revs := revs[..|revs| - 1];
        ghost var m := keyRevisionMap;
        if |revs| == 0 {
          keyRevisionMap := keyRevisionMap - {key};
        } else {
          keyRevisionMap := keyRevisionMap[key := revs];
        }
        forall k: K ensures PoppedOk(s, keyRevisionMap, keys - {key}, k) {
          assert PoppedOk(s, m, keys, k);
        }
        keys := keys - {key};
      }
      mapStack := mapStack[..|mapStack| - 1];
      forall k: K ensures if k in keyRevisionMap then keyRevisionMap[k] == Holding(below, k) && keyRevisionMap[k] != []
                          else Holding(below, k) == [] {
        assert PoppedOk(s, keyRevisionMap, {}, k);
      }
    }

    /** PopTo */
    method PopDownTo(depth: nat)
      requires Valid()
      modifies this
      ensures Valid() && mapStack == PopTo(old(mapStack), depth)
    {
      while |mapStack| > depth
        invariant Valid() && |mapStack| >= if depth < |old(mapStack)| then depth else |old(mapStack)|
        invariant |mapStack| <= |old(mapStack)| && mapStack == old(mapStack)[..|mapStack|]
      {
        Pop();
      }
    }

    method Get(key: K) returns (r: Got<V>)
      requires Valid()
      ensures r == Read(mapStack, src, key)
    {
      ReadByIndex(mapStack, src, key);
      HoldingBelow(mapStack, key);
      if key in keyRevisionMap {
        var revs := keyRevisionMap[key];
        var lvl := mapStack[revs[|revs| - 1]];
        if key in lvl.kvs {
          return Got(lvl.kvs[key]);
        }
      }
      r := src(key);
    }

    method Put(key: K, value: V)
      requires Valid() && mapStack != []
      modifies this
      ensures Valid() && mapStack == PutTop(old(mapStack), key, value)
    {
      PutTopOk(mapStack, key, value);
      PutIndexOk(mapStack, keyRevisionMap, key, value);
      hide LevelsOk, IndexOk;
      var top := mapStack[|mapStack| - 1];
      var rev := |mapStack| - 1;
      mapStack := mapStack[rev := Level(top.kvs[key := value], top.journal + [Change(key, value)])];
      if key in keyRevisionMap {
        var revs := keyRevisionMap[key];
        if revs[|revs| - 1] != rev {
          keyRevisionMap := keyRevisionMap[key := revs + [rev]];
        }
      } else {
        keyRevisionMap := keyRevisionMap[key := [rev]];
      }
    }
  }

  /** The index while the top level is being taken off: only the keys still to do have their top entry. */
  ghost predicate PoppedOk<K(!new), V>(s: Stack<K, V>, revs: map<K, seq<nat>>, todo: set<K>, k: K)
    requires s != []
  {
    var h := if k in todo then Holding(s, k) else Holding(s[..|s| - 1], k);
    if k in revs then revs[k] == h && h != [] else h == []
  }

  // ---- whole runs ----

  datatype Op<K, V> = OpPush | OpPop | OpPopTo(depth: nat) | OpPut(key: K, value: V)

  function Apply<K, V>(s: Stack<K, V>, op: Op<K, V>): Stack<K, V> {
    match op
    case OpPush => PushTo(s)
    case OpPop => if s == [] then s else s[..|s| - 1]
    case OpPopTo(d) => PopTo(s, d)
    case OpPut(k, v) => if s == [] then s else PutTop(s, k, v)
  }

  function ApplyAll<K, V>(s: Stack<K, V>, ops: seq<Op<K, V>>): Stack<K, V>
    decreases |ops|
  {
    if ops == [] then s else ApplyAll(Apply(s, ops[0]), ops[1..])
  }

  /** The depth never drops below the mark. */
  predicate NeverBelow<K, V>(s: Stack<K, V>, ops: seq<Op<K, V>>, mark: nat)
    decreases |ops|
  {
    |s| >= mark && (ops != [] ==> NeverBelow(Apply(s, ops[0]), ops[1..], mark))
  }

  /** Some value is put while the depth is at the mark. */
  predicate WritesAt<K, V>(s: Stack<K, V>, ops: seq<Op<K, V>>, mark: nat)
    decreases |ops|
  {
    ops != [] && ((|s| == mark > 0 && ops[0].OpPut?) || WritesAt(Apply(s, ops[0]), ops[1..], mark))
  }

  /** The levels up to the mark stay as they are, or their journal grows for good. */
  lemma {:induction false} LowLevels<K, V>(s: Stack<K, V>, ops: seq<Op<K, V>>, mark: nat)
    requires NeverBelow(s, ops, mark)
    ensures |ApplyAll(s, ops)| >= mark
    ensures !WritesAt(s, ops, mark) ==> ApplyAll(s, ops)[..mark] == s[..mark]
    ensures |Journal(ApplyAll(s, ops)[..mark])| >= |Journal(s[..mark])| + if WritesAt(s, ops, mark) then 1 else 0
    decreases |ops|
  {
    if ops != [] {
      var s' := Apply(s, ops[0]);
      LowLevels(s', ops[1..], mark);
      if |s| == mark > 0 && ops[0].OpPut? {
        assert s[..mark] == s && s'[..mark] == s' && s'[..mark - 1] == s[..mark - 1];
      } else {
        assert s'[..mark] == s[..mark];
      }
    }
  }

  /**
   As long as the depth stays at or above the mark, PopTo(Push()) undoes everything in between unless something
   was put at the mark itself.
   */
  lemma PopToRestoresIff<K, V>(s: Stack<K, V>, ops: seq<Op<K, V>>)
    requires NeverBelow(PushTo(s), ops, |s|)
    ensures PopTo(ApplyAll(PushTo(s), ops), |s|) == s <==> !WritesAt(PushTo(s), ops, |s|)
  {
    LowLevels(PushTo(s), ops, |s|);
    var end := ApplyAll(PushTo(s), ops);
    assert PushTo(s)[..|s|] == s && PopTo(end, |s|) == end[..|s|];
  }

  // ---- what comes of a stack without going below where it stood ----

  ghost predicate Above<K(!new), V(!new)>(s: Stack<K, V>, s': Stack<K, V>) {
    exists ops: seq<Op<K, V>> :: s' == ApplyAll(s, ops) && NeverBelow(s, ops, |s|)
  }

  lemma {:induction false} RunTwice<K, V>(s: Stack<K, V>, a: seq<Op<K, V>>, b: seq<Op<K, V>>, mark: nat)
    requires NeverBelow(s, a, mark) && NeverBelow(ApplyAll(s, a), b, mark)
    ensures ApplyAll(s, a + b) == ApplyAll(ApplyAll(s, a), b) && NeverBelow(s, a + b, mark)
    decreases |a|
  {
    if a == [] {
      assert a + b == b;
    } else {
      assert (a + b)[1..] == a[1..] + b;
      RunTwice(Apply(s, a[0]), a[1..], b, mark);
    }
  }

  lemma {:induction false} LowerMark<K, V>(s: Stack<K, V>, ops: seq<Op<K, V>>, high: nat, low: nat)
    requires NeverBelow(s, ops, high) && low <= high
    ensures NeverBelow(s, ops, low) && (low < high ==> !WritesAt(s, ops, low))
    decreases |ops|
  {
    if ops != [] { LowerMark(Apply(s, ops[0]), ops[1..], high, low); }
  }

  lemma {:induction false} StaysDeep<K, V>(s: Stack<K, V>, ops: seq<Op<K, V>>, mark: nat)
    requires NeverBelow(s, ops, mark)
    ensures |ApplyAll(s, ops)| >= mark
    decreases |ops|
  {
    if ops != [] { StaysDeep(Apply(s, ops[0]), ops[1..], mark); }
  }

  lemma AboveItself<K(!new), V(!new)>(s: Stack<K, V>)
    ensures Above(s, s)
  {
    assert ApplyAll(s, []) == s && NeverBelow(s, [], |s|);
  }

  lemma AboveOne<K(!new), V(!new)>(s: Stack<K, V>, op: Op<K, V>)
    requires |Apply(s, op)| >= |s|
    ensures Above(s, Apply(s, op))
  {
    var ops := [op];
    assert ops[1..] == [];
    assert ApplyAll(s, ops) == ApplyAll(Apply(s, op), []) == Apply(s, op);
    assert NeverBelow(Apply(s, op), ops[1..], |s|);
    assert NeverBelow(s, ops, |s|);
  }

  lemma AboveTwice<K(!new), V(!new)>(s: Stack<K, V>, s': Stack<K, V>, s'': Stack<K, V>)
    requires Above(s, s') && Above(s', s'')
    ensures Above(s, s'') && |s''| >= |s|
  {
    var a :| s' == ApplyAll(s, a) && NeverBelow(s, a, |s|);
    var b :| s'' == ApplyAll(s', b) && NeverBelow(s', b, |s'|);
    StaysDeep(s, a, |s|);
    LowerMark(s', b, |s'|, |s|);
    RunTwice(s, a, b, |s|);
    StaysDeep(s, a + b, |s|);
  }

  lemma AbovePut<K(!new), V(!new)>(s: Stack<K, V>, k: K, v: V)
    requires s != []
    ensures Above(s, PutTop(s, k, v))
  {
    AboveOne(s, OpPut(k, v));
  }

  lemma AbovePush<K(!new), V(!new)>(s: Stack<K, V>)
    ensures Above(s, PushTo(s))
  {
    AboveOne(s, OpPush);
  }

  /** Going back to any depth that is not below the start stays above it. */
  lemma AbovePopTo<K(!new), V(!new)>(s: Stack<K, V>, s': Stack<K, V>, depth: nat)
    requires Above(s, s') && depth >= |s|
    ensures Above(s, PopTo(s', depth))
  {
    var a :| s' == ApplyAll(s, a) && NeverBelow(s, a, |s|);
    StaysDeep(s, a, |s|);
    var b := [OpPopTo(depth)];
    assert b[1..] == [];
    assert ApplyAll(s', b) == ApplyAll(PopTo(s', depth), []) == PopTo(s', depth);
    assert NeverBelow(PopTo(s', depth), b[1..], |s|);
    assert NeverBelow(s', b, |s|);
    RunTwice(s, a, b, |s|);
  }

  /** What comes of a checkpoint without going below it is undone by going back to it. */
  lemma CheckpointRestores<K(!new), V(!new)>(s: Stack<K, V>, s': Stack<K, V>)
    requires Above(PushTo(s), s')
    ensures PopTo(s', |s|) == s && Journal(PopTo(s', |s|)) == Journal(s)
  {
    var ops :| s' == ApplyAll(PushTo(s), ops) && NeverBelow(PushTo(s), ops, |PushTo(s)|);
    LowerMark(PushTo(s), ops, |s| + 1, |s|);
    PopToRestoresIff(s, ops);
  }

  /** Going down to the mark and writing there is not undone. */
  lemma WritesAtTheMarkStay()
    ensures var s: Stack<int, int> := [Level(map[], [])];
            var ops := [OpPop, OpPut(1, 2)];
            Read(PopTo(ApplyAll(PushTo(s), ops), |s|), _ => Absent, 1) != Read(s, _ => Absent, 1)
  {
    var s: Stack<int, int> := [Level(map[], [])];
    var ops: seq<Op<int, int>> := [OpPop, OpPut(1, 2)];
    assert PushTo(s)[..1] == s;
    assert ops[1..] == [OpPut(1, 2)] && ops[1..][1..] == [];
    assert Apply(PushTo(s), ops[0]) == s;
    assert ApplyAll(s, ops[1..]) == ApplyAll(Apply(s, ops[1..][0]), []) == PutTop(s, 1, 2);
    assert s[..0] == [];
  }
}
