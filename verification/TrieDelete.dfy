/** Removing a key (trie/trie.go, delete). */
module TrieDelete {
  import opened ByteStrings
  import opened HexPrefix
  import opened TrieNode
  import opened TrieTree
  import opened TrieMerkle
  import opened TrieStore
  import opened TrieGet
  import opened TrieInsert

  // ---- the child that is left ----

  const NO_CHILD := -1
  const MANY := -2

  /** The scan from place i with what was found before it: an index, NO_CHILD or MANY. */
  function OnlyFrom(present: seq<bool>, i: nat, pos: int): (r: int)
    requires i <= |present|
    requires if pos == NO_CHILD then forall j :: 0 <= j < i ==> !present[j]
             else 0 <= pos < i && present[pos] && forall j :: 0 <= j < i && j != pos ==> !present[j]
    ensures if r == MANY then exists j, k :: 0 <= j < k < |present| && present[j] && present[k]
            else if r == NO_CHILD then forall j :: 0 <= j < |present| ==> !present[j]
            else 0 <= r < |present| && present[r] && forall j :: 0 <= j < |present| && j != r ==> !present[j]
    decreases |present| - i
  {
    if i == |present| then pos
    else if !present[i] then OnlyFrom(present, i + 1, pos)
    else if pos == NO_CHILD then OnlyFrom(present, i + 1, i)
    else MANY
  }

  function Only(present: seq<bool>): int { OnlyFrom(present, 0, NO_CHILD) }

  /** The loop of delete over the children. */
  method FindOnly(cs: seq<Node>) returns (pos: int)
    ensures pos == Only(seq(|cs|, i requires 0 <= i < |cs| => !cs[i].Nil?))
  {
    pos := NO_CHILD;
    ghost var present := seq(|cs|, i requires 0 <= i < |cs| => !cs[i].Nil?);
    for i := 0 to |cs|
      invariant if pos == NO_CHILD then forall j :: 0 <= j < i ==> !present[j]
                else 0 <= pos < i && present[pos] && forall j :: 0 <= j < i && j != pos ==> !present[j]
      invariant Only(present) == OnlyFrom(present, i, pos)
    {
      if !cs[i].Nil? {
        if pos == NO_CHILD {
          pos := i;
        } else {
          pos := MANY;
          break;
        }
      }
    }
  }

  // ---- delete ----

  /** A full node after a child is gone: a single child left folds it into a short node. */
  function Collapse(db: Db, gen: Uint16, cs: seq<Node>, prefix: Hex): Outcome<Node>
    requires |cs| == WIDTH
  {
    var pos := Only(seq(WIDTH, i requires 0 <= i < WIDTH => !cs[i].Nil?));
    if pos < 0 then Ok(Full(cs, NewFlag(gen)))
    else if pos == 16 then Ok(Short([pos], cs[pos], NewFlag(gen)))
    else
      match (if cs[pos].RefNode? then Resolve(db, gen, cs[pos].ref, prefix + [pos]) else Ok(cs[pos]))
      case Ok(Short(k, c, _)) => Ok(Short([pos] + k, c, NewFlag(gen)))
      case Ok(_) => Ok(Short([pos], cs[pos], NewFlag(gen)))
      case Missing(r, p) => Missing(r, p)
      case Corrupt => Corrupt
  }

  function Delete(db: Db, gen: Uint16, n: Node, prefix: Hex, key: Hex): Outcome<Changed>
    decreases |key|, if n.RefNode? then 1 else 0
  {
    match n
    case Short(k, c, _) =>
      var m := PrefixLen(key, k);
      if m < |k| then Ok(Changed(false, n))
      else if m == |key| then Ok(Changed(true, Nil))
      else if k == [] then Corrupt
      else (
        match Delete(db, gen, c, prefix + key[..|k|], key[|k|..])
        case Ok(r) =>
          if !r.dirty then Ok(Changed(false, n))
          else Ok(Changed(true, match r.node
                                case Short(ck, cc, _) => Short(k + ck, cc, NewFlag(gen))
                                case _ => Short(k, r.node, NewFlag(gen))))
        case err => err
      )
    case Full(cs, _) =>
      if key == [] || |cs| != WIDTH then Corrupt
      else (
        match Delete(db, gen, cs[key[0]], prefix + [key[0]], key[1..])
        case Ok(r) =>
          if !r.dirty then Ok(Changed(false, n))
          else (
            match Collapse(db, gen, cs[key[0] := r.node], prefix)
            case Ok(nn) => Ok(Changed(true, nn))
            case Missing(r, p) => Missing(r, p)
            case Corrupt => Corrupt
          )
        case err => err
      )
    case Value(_, _) => Ok(Changed(true, Nil))
    case Nil => Ok(Changed(false, Nil))
    case RefNode(r) =>
      match Resolve(db, gen, r, prefix)
      case Missing(r, p) => Missing(r, p)
      case Corrupt => Corrupt
      case Ok(rn) =>
        match Delete(db, gen, rn, prefix, key)
        case Ok(r) => if !r.dirty then Ok(Changed(false, rn)) else Ok(r)
        case err => err
  }

  // ---- the same on trees ----

  /** A key put in front of a subtree, without a short node below a short node. */
  function TJoin(k: Hex, c: Tree): Tree {
    if c.TShort? then TShort(k + c.key, c.child) else TShort(k, c)
  }

  lemma TJoinLookup(k: Hex, c: Tree, kk: Hex)
    ensures Lookup(TJoin(k, c), kk) == if k <= kk then Lookup(c, kk[|k|..]) else None
  {
    if c.TShort? && k <= kk {
      assert kk == k + kk[|k|..];
      assert k + c.key <= kk <==> c.key <= kk[|k|..];
      if k + c.key <= kk { assert kk[|k + c.key|..] == kk[|k|..][|c.key|..]; }
    }
  }

  predicate Slots(ts: seq<Tree>) {
    && |ts| == 17
    && (forall i :: 0 <= i < 16 ==> ts[i].TNil? || TrieTree.Node(ts[i]))
    && (ts[16].TNil? || IsVal(ts[16]))
  }

  function TCollapse(ts: seq<Tree>): Tree
    requires |ts| == 17
  {
    var pos := Only(seq(17, i requires 0 <= i < 17 => !ts[i].TNil?));
    if pos < 0 then TFull(ts) else TJoin([pos], ts[pos])
  }

  lemma TCollapseCorrect(ts: seq<Tree>, j: nat)
    requires Slots(ts) && j < 17 && !ts[j].TNil?
    ensures TrieTree.Node(TCollapse(ts))
    ensures forall k: Hex :: Lookup(TCollapse(ts), k) == Lookup(TFull(ts), k)
  {
    var present := seq(17, i requires 0 <= i < 17 => !ts[i].TNil?);
    var pos := Only(present);
    assert present[j];
    if pos == MANY {
      var x, y :| 0 <= x < y < |present| && present[x] && present[y];
      assert !ts[x].TNil? && !ts[y].TNil?;
    } else {
      forall k: Hex ensures Lookup(TCollapse(ts), k) == Lookup(TFull(ts), k) {
        TJoinLookup([pos], ts[pos], k);
        if k != [] && k[0] < 17 {
          assert [pos] <= k <==> k[0] == pos;
          assert k[0] != pos ==> !present[k[0]];
        }
      }
      if ts[pos].TShort? {
        assert HasTerm([pos] + ts[pos].key) == HasTerm(ts[pos].key);
      }
    }
  }

  // ---- nodes follow trees ----

  /** A short node with one more key in front, represented. */
  lemma JoinRep(e: Env, gen: Uint16, k: Hex, n: Node, p: Hex, t: Tree)
    requires Rep(e, n, p + k, t) && (n.Short? || !t.TShort?)
    ensures var n' := if n.Short? then Short(k + n.key, n.child, NewFlag(gen)) else Short(k, n, NewFlag(gen));
            Rep(e, n', p, TJoin(k, t))
  {
    hide FlagsOk;
    NewFlagOk(e, gen, p, TJoin(k, t));
    if n.Short? { assert p + k + n.key == p + (k + n.key); }
  }

  lemma CollapseRep(e: Env, gen: Uint16, cs: seq<Node>, p: Hex, ts: seq<Tree>)
    requires Hash32(e.h) && |cs| == WIDTH && Slots(ts) && RepChildren(e, cs, p, TFull(ts))
    ensures var o := Collapse(e.db, gen, cs, p);
            o.Ok? && Rep(e, o.value, p, TCollapse(ts)) && !o.value.RefNode?
  {
    hide FlagsOk, Loads, RefOk, Resolve, TJoin, OnlyFrom;
    var left := seq(WIDTH, i requires 0 <= i < WIDTH => !cs[i].Nil?);
    forall i | 0 <= i < 17 ensures cs[i].Nil? <==> ts[i].TNil? { NilIffNil(e, cs[i], p + [i], ts[i]); }
    assert left == seq(17, i requires 0 <= i < 17 => !ts[i].TNil?);
    var pos := Only(left);
    if pos < 0 {
      NewFlagOk(e, gen, p, TFull(ts));
    } else {
      assert Rep(e, cs[pos], p + [pos], ts[pos]);
      if pos != 16 && cs[pos].RefNode? {
        ResolveRep(e, gen, cs[pos].ref, p + [pos], ts[pos]);
        var rn := Resolve(e.db, gen, cs[pos].ref, p + [pos]).value;
        if rn.Short? {
          JoinRep(e, gen, [pos], rn, p, ts[pos]);
        } else {
          JoinRep(e, gen, [pos], cs[pos], p, ts[pos]);
        }
      } else {
        if cs[pos].RefNode? { RefLeadsToNode(e, cs[pos].ref, p + [pos], ts[pos]); }
        JoinRep(e, gen, [pos], cs[pos], p, ts[pos]);
      }
    }
  }

  // ---- correctness ----

  ghost predicate Removed(t: Tree, t': Tree, key: Hex) {
    forall k: Hex :: Lookup(t', k) == if k == key then None else Lookup(t, k)
  }

  lemma RemovedFromFull(t: Tree, i: nat, c': Tree, key: Hex)
    requires t.TFull? && TrieTree.Node(t) && Terminated(key) && key[0] == i
    requires Removed(t.children[i], c', key[1..]) && WellFormedAt(c', key[1..])
    ensures var ts := t.children[i := c']; var t' := TCollapse(ts);
            Slots(ts) && TrieTree.Node(t') && Removed(t, t', key)
  {
    hide TCollapse;
    var ts := t.children[i := c'];
    assert Slots(ts);
    var x, y :| 0 <= x < y < |t.children| && !t.children[x].TNil? && !t.children[y].TNil?;
    TCollapseCorrect(ts, if x == i then y else x);
    forall k: Hex ensures Lookup(TFull(ts), k) == if k == key then None else Lookup(t, k) {
      if k != [] && k[0] == i {
        assert k == [i] + k[1..] && key == [i] + key[1..];
        assert Lookup(c', k[1..]) == if k[1..] == key[1..] then None else Lookup(t.children[i], k[1..]);
      }
    }
  }

  lemma RemovedFromShort(t: Tree, c': Tree, key: Hex)
    requires t.TShort? && TrieTree.Node(t) && t.key < key && Terminated(key)
    requires Removed(t.child, c', key[|t.key|..]) && TrieTree.Node(c')
    ensures var t' := TJoin(t.key, c'); Removed(t, t', key) && TrieTree.Node(t')
  {
    ShortStep(t, key);
    var t' := TJoin(t.key, c');
    forall k: Hex ensures Lookup(t', k) == if k == key then None else Lookup(t, k) {
      TJoinLookup(t.key, c', k);
      if t.key <= k {
        assert k == t.key + k[|t.key|..] && key == t.key + key[|t.key|..];
        assert Lookup(c', k[|t.key|..]) ==
               if k[|t.key|..] == key[|t.key|..] then None else Lookup(t.child, k[|t.key|..]);
      }
    }
    if c'.TShort? { assert HasTerm(t.key + c'.key) == HasTerm(c'.key); }
  }

  lemma NothingToRemove(t: Tree, key: Hex)
    requires Lookup(t, key).None?
    ensures Removed(t, t, key)
  {
  }

  lemma RemovedWhole(t: Tree, key: Hex)
    requires t.TShort? && TrieTree.Node(t) && t.key == key && Terminated(key)
    ensures Removed(t, TNil, key) && Lookup(t, key).Some?
  {
    assert key[|key|..] == [];
    forall k: Hex ensures k != key ==> Lookup(t, k).None? {
      if key <= k { assert k == key + k[|key|..]; }
    }
  }

  lemma RemovedValue(t: Tree)
    requires IsVal(t)
    ensures Removed(t, TNil, []) && Lookup(t, []).Some?
  {
  }

  lemma RemovedChanges(t: Tree, t': Tree, key: Hex)
    requires Removed(t, t', key) && Lookup(t, key).Some?
    ensures t' != t
  {
    assert Lookup(t', key).None?;
  }

  /** delete never fails on a represented tree, removes exactly the key, and keeps the shape. */
  lemma {:induction false} DeleteCorrect(e: Env, gen: Uint16, n: Node, p: Hex, key: Hex, t: Tree)
    returns (t': Tree)
    requires Hash32(e.h) && KeyRest(key) && Rep(e, n, p, t) && WellFormedAt(t, key)
    ensures var o := Delete(e.db, gen, n, p, key);
            && o.Ok? && Rep(e, o.value.node, p, t')
            && (o.value.dirty <==> t' != t) && (o.value.dirty <==> Lookup(t, key).Some?)
            && (o.value.dirty ==> !o.value.node.RefNode?)
    ensures WellFormedAt(t', key) && Removed(t, t', key) && (t.TFull? ==> TrieTree.Node(t'))
    decreases |key|, if n.RefNode? then 2 else 1
  {
    hide FlagsOk, Loads, RefOk, Resolve, ValidHex, Collapse, TCollapse, Removed;
    match n
    case Nil =>
      t' := t;
      NothingToRemove(t, key);
    case Value(_, _) =>
      t' := TNil;
      RemovedValue(t);
    case Short(k, c, f) =>
      t' := DeleteShort(e, gen, n, p, key, t);
    case Full(cs, f) =>
      var i := key[0];
      FullStep(t, key);
      var c' := DeleteCorrect(e, gen, cs[i], p + [i], key[1..], t.children[i]);
      var o := Delete(e.db, gen, cs[i], p + [i], key[1..]).value;
      if o.dirty {
        var ts := t.children[i := c'];
        t' := TCollapse(ts);
        RemovedFromFull(t, i, c', key);
        assert RepChildren(e, cs[i := o.node], p, TFull(ts));
        CollapseRep(e, gen, cs[i := o.node], p, ts);
        RemovedChanges(t, t', key);
      } else {
        t' := t;
        NothingToRemove(t, key);
      }
    case RefNode(r) =>
      ResolveRep(e, gen, r, p, t);
      RefLeadsToNode(e, r, p, t);
      t' := DeleteCorrect(e, gen, Resolve(e.db, gen, r, p).value, p, key, t);
  }

  lemma {:induction false} DeleteShort(e: Env, gen: Uint16, n: Node, p: Hex, key: Hex, t: Tree)
    returns (t': Tree)
    requires Hash32(e.h) && Terminated(key) && n.Short? && Rep(e, n, p, t) && TrieTree.Node(t)
    ensures var o := Delete(e.db, gen, n, p, key);
            && o.Ok? && Rep(e, o.value.node, p, t')
            && (o.value.dirty <==> t' != t) && (o.value.dirty <==> Lookup(t, key).Some?)
            && (o.value.dirty ==> !o.value.node.RefNode?)
    ensures WellFormedAt(t', key) && Removed(t, t', key)
    decreases |key|, 0
  {
    hide FlagsOk, Loads, RefOk, Resolve, ValidHex, Collapse, TCollapse, Removed, TJoin;
    var Short(k, c, f) := n;
    var m := PrefixLen(key, k);
    if m < |k| {
      t' := t;
      MismatchIsNoPrefix(key, k);
      NothingToRemove(t, key);
    } else if m == |key| {
      assert k == key[..m] == key;
      t' := TNil;
      RemovedWhole(t, key);
    } else {
      assert key[..|k|] == k && k <= key;
      ShortStep(t, key);
      var c' := DeleteCorrect(e, gen, c, p + key[..|k|], key[|k|..], t.child);
      var o := Delete(e.db, gen, c, p + key[..|k|], key[|k|..]).value;
      if o.dirty {
        t' := TJoin(k, c');
        RemovedFromShort(t, c', key);
        JoinRep(e, gen, k, o.node, p, c');
        RemovedChanges(t, t', key);
      } else {
        t' := t;
        NothingToRemove(t, key);
      }
    }
  }

  lemma MismatchIsNoPrefix(key: Hex, k: Hex)
    requires PrefixLen(key, k) < |k|
    ensures !(k <= key)
  {
  }
}
