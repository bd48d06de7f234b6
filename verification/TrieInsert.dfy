/** Storing a value (trie/trie.go, insert). */
module TrieInsert {
  import opened ByteStrings
  import opened HexPrefix
  import opened TrieNode
  import opened TrieTree
  import opened TrieMerkle
  import opened TrieStore
  import opened TrieGet

  datatype Changed = Changed(dirty: bool, node: Node)

  function NewFlag(gen: Uint16): Flags { Flags(NO_REF, gen, true) }

  /** insert below a nil node */
  function Leaf(gen: Uint16, key: Hex, value: Node): Node {
    if key == [] then value else Short(key, value, NewFlag(gen))
  }

  /** The node that replaces a short node where a new key leaves it after m nibbles. */
  function Branch(gen: Uint16, k: Hex, c: Node, key: Hex, value: Node, m: nat): Node
    requires m < |k| && m < |key|
  {
    var none := seq(WIDTH, _ => Nil);
    var one := none[k[m] := Leaf(gen, k[m + 1..], c)];
    var full := Full(one[key[m] := Leaf(gen, key[m + 1..], value)], NewFlag(gen));
    if m == 0 then full else Short(key[..m], full, NewFlag(gen))
  }

  function Insert(db: Db, gen: Uint16, n: Node, prefix: Hex, key: Hex, value: Node): Outcome<Changed>
    requires value.Value?
    decreases |key|, if n.RefNode? then 1 else 0
  {
    if key == [] then Ok(Changed(n != value, value))
    else
      match n
      case Nil => Ok(Changed(true, Leaf(gen, key, value)))
      case Short(k, c, _) =>
        var m := PrefixLen(key, k);
        if k == [] then Corrupt
        else if m == |k| then
          match Insert(db, gen, c, prefix + key[..m], key[m..], value)
          case Ok(r) => if !r.dirty then Ok(Changed(false, n)) else Ok(Changed(true, Short(k, r.node, NewFlag(gen))))
          case err => err
        else if m == |key| then Corrupt
        else Ok(Changed(true, Branch(gen, k, c, key, value, m)))
      case Full(cs, _) =>
        if key[0] >= |cs| then Corrupt
        else (
          match Insert(db, gen, cs[key[0]], prefix + [key[0]], key[1..], value)
          case Ok(r) =>
            if !r.dirty then Ok(Changed(false, n)) else Ok(Changed(true, Full(cs[key[0] := r.node], NewFlag(gen))))
          case err => err
        )
      case RefNode(r) => (
        match Resolve(db, gen, r, prefix)
        case Missing(r, p) => Missing(r, p)
        case Corrupt => Corrupt
        case Ok(rn) =>
          match Insert(db, gen, rn, prefix, key, value)
          case Ok(r) => if !r.dirty then Ok(Changed(false, rn)) else Ok(r)
          case err => err
      )
      case Value(_, _) => Corrupt
  }

  // ---- the same on trees ----

  function TLeaf(k: Hex, c: Tree): Tree { if k == [] then c else TShort(k, c) }

  lemma TLeafLookup(k: Hex, c: Tree, kk: Hex)
    ensures Lookup(TLeaf(k, c), kk) == if k <= kk then Lookup(c, kk[|k|..]) else None
  {
    if k == [] { assert kk[0..] == kk; }
  }

  function TBranch(k: Hex, c: Tree, key: Hex, v: Entry, m: nat): Tree
    requires m < |k| && m < |key|
  {
    var none := seq(17, _ => TNil);
    var one := none[k[m] := TLeaf(k[m + 1..], c)];
    var full := TFull(one[key[m] := TLeaf(key[m + 1..], TVal(v.val, v.meta))]);
    if m == 0 then full else TShort(key[..m], full)
  }

  lemma TBranchLookup(k: Hex, c: Tree, key: Hex, v: Entry, m: nat, kk: Hex)
    requires m < |k| && m < |key| && k[..m] == key[..m] && k[m] != key[m]
    ensures Lookup(TBranch(k, c, key, v, m), kk) == if kk == key then Some(v) else Lookup(TShort(k, c), kk)
  {
    if m < |kk| && kk[..m] == key[..m] {
      TBranchStep(k, c, key, v, m, kk);
      if kk[m] == k[m] {
        TLeafLookup(k[m + 1..], c, kk[m + 1..]);
        TailPrefix(k, kk, m);
      } else if kk[m] == key[m] {
        TLeafLookup(key[m + 1..], TVal(v.val, v.meta), kk[m + 1..]);
        TailPrefix(key, kk, m);
      }
    } else {
      TBranchMiss(k, c, key, v, m, kk);
    }
  }

  lemma TBranchStep(k: Hex, c: Tree, key: Hex, v: Entry, m: nat, kk: Hex)
    requires m < |k| && m < |key| && m < |kk| && kk[..m] == key[..m] && k[m] != key[m]
    ensures Lookup(TBranch(k, c, key, v, m), kk) ==
            if kk[m] == k[m] then Lookup(TLeaf(k[m + 1..], c), kk[m + 1..])
            else if kk[m] == key[m] then Lookup(TLeaf(key[m + 1..], TVal(v.val, v.meta)), kk[m + 1..])
            else None
  {
    hide TLeaf;
    var b := TBranch(k, c, key, v, m);
    var full := if m == 0 then b else b.child;
    if m == 0 { assert kk[m..] == kk; }
    assert kk[m..][1..] == kk[m + 1..];
    assert Lookup(b, kk) == Lookup(full, kk[m..]) == Lookup(full.children[kk[m]], kk[m + 1..]);
  }

  lemma TBranchMiss(k: Hex, c: Tree, key: Hex, v: Entry, m: nat, kk: Hex)
    requires m < |k| && m < |key| && k[..m] == key[..m] && !(m < |kk| && kk[..m] == key[..m])
    ensures Lookup(TBranch(k, c, key, v, m), kk).None? && !(k <= kk) && kk != key
  {
    hide TLeaf;
    if m == 0 { assert kk[..m] == key[..m]; }
    if k <= kk { PrefixTake(k, kk, m); }
    if key[..m] <= kk && |kk| == m { assert kk[m..] == []; }
  }

  lemma PrefixTake(k: Hex, kk: Hex, m: nat)
    requires k <= kk && m < |k|
    ensures m < |kk| && kk[..m] == k[..m]
  {
  }

  lemma TailPrefix(k: Hex, kk: Hex, m: nat)
    requires m < |k| && m < |kk| && k[..m] == kk[..m] && k[m] == kk[m]
    ensures k[m + 1..] <= kk[m + 1..] <==> k <= kk
    ensures k <= kk ==> kk[m + 1..][|k| - m - 1..] == kk[|k|..]
    ensures k <= kk ==> (kk[|k|..] == [] <==> kk == k)
  {
    assert k == k[..m] + [k[m]] + k[m + 1..] && kk == kk[..m] + [kk[m]] + kk[m + 1..];
  }

  lemma TBranchWellFormed(k: Hex, c: Tree, key: Hex, v: Entry, m: nat)
    requires m < |k| && m < |key| && k[..m] == key[..m] && k[m] != key[m]
    requires TrieTree.Node(TShort(k, c)) && Terminated(key) && v.val != []
    ensures TrieTree.Node(TBranch(k, c, key, v, m))
  {
    var b := TBranch(k, c, key, v, m);
    var cs := (if m == 0 then b else b.child).children;
    assert !cs[k[m]].TNil? && !cs[key[m]].TNil?;
    assert TwoChildren(cs) by {
      if k[m] < key[m] { assert !cs[k[m]].TNil?; } else { assert !cs[key[m]].TNil?; }
    }
    assert k[m + 1..] != [] ==> HasTerm(k[m + 1..]) == HasTerm(k);
    assert key[m + 1..] != [] ==> HasTerm(key[m + 1..]);
  }

  // ---- nodes follow trees ----

  lemma NewFlagOk(e: Env, gen: Uint16, p: Hex, t: Tree)
    ensures FlagsOk(e, NewFlag(gen), p, t)
  {
  }

  lemma LeafRep(e: Env, gen: Uint16, p: Hex, k: Hex, n: Node, t: Tree)
    requires Rep(e, n, p + k, t)
    ensures Rep(e, Leaf(gen, k, n), p, TLeaf(k, t))
  {
    if k == [] { assert p + k == p; }
  }

  lemma BranchRep(e: Env, gen: Uint16, p: Hex, k: Hex, c: Node, tc: Tree, key: Hex, v: Entry, m: nat)
    requires m < |k| && m < |key| && k[..m] == key[..m] && k[m] != key[m]
    requires Rep(e, c, p + k, tc)
    ensures Rep(e, Branch(gen, k, c, key, Value(v.val, v.meta), m), p, TBranch(k, tc, key, v, m))
  {
    hide FlagsOk, Leaf, TLeaf;
    var q := p + key[..m];
    var b, tb := Branch(gen, k, c, key, Value(v.val, v.meta), m), TBranch(k, tc, key, v, m);
    var full, tfull := if m == 0 then b else b.child, if m == 0 then tb else tb.child;
    assert q + [k[m]] + k[m + 1..] == p + k;
    LeafRep(e, gen, q + [k[m]], k[m + 1..], c, tc);
    LeafRep(e, gen, q + [key[m]], key[m + 1..], Value(v.val, v.meta), TVal(v.val, v.meta));
    assert RepChildren(e, full.children, q, tfull);
    NewFlagOk(e, gen, q, tfull);
    NewFlagOk(e, gen, p, tb);
    if m == 0 { assert q == p; }
  }

  // ---- correctness ----

  ghost predicate Stored(t: Tree, t': Tree, key: Hex, v: Entry) {
    forall k: Hex :: Lookup(t', k) == if k == key then Some(v) else Lookup(t, k)
  }

  lemma StoredInFull(t: Tree, i: nat, c': Tree, key: Hex, v: Entry)
    requires t.TFull? && TrieTree.Node(t) && Terminated(key) && key[0] == i
    requires Stored(t.children[i], c', key[1..], v) && !c'.TNil? && WellFormedAt(c', key[1..])
    ensures var t' := TFull(t.children[i := c']);
            Stored(t, t', key, v) && TrieTree.Node(t') && (t' == t <==> c' == t.children[i])
  {
    var t' := TFull(t.children[i := c']);
    assert t.children[i := t.children[i]] == t.children;
    assert c' == t'.children[i];
    forall k: Hex ensures Lookup(t', k) == if k == key then Some(v) else Lookup(t, k) {
      if k != [] && k[0] == i {
        assert k == [i] + k[1..] && key == [i] + key[1..];
        assert Lookup(c', k[1..]) == if k[1..] == key[1..] then Some(v) else Lookup(t.children[i], k[1..]);
      }
    }
    var x, y :| 0 <= x < y < |t.children| && !t.children[x].TNil? && !t.children[y].TNil?;
    assert !t'.children[x].TNil? && !t'.children[y].TNil?;
  }

  lemma StoredInShort(t: Tree, c': Tree, key: Hex, v: Entry)
    requires t.TShort? && TrieTree.Node(t) && Terminated(key) && t.key <= key
    requires Stored(t.child, c', key[|t.key|..], v) && !c'.TNil? && WellFormedAt(c', key[|t.key|..])
    requires t.child.TFull? ==> c'.TFull?
    ensures var t' := TShort(t.key, c');
            Stored(t, t', key, v) && TrieTree.Node(t') && (t' == t <==> c' == t.child)
  {
    ShortStep(t, key);
    var t' := TShort(t.key, c');
    forall k: Hex ensures Lookup(t', k) == if k == key then Some(v) else Lookup(t, k) {
      if t.key <= k {
        assert k == t.key + k[|t.key|..] && key == t.key + key[|t.key|..];
        assert Lookup(c', k[|t.key|..]) ==
               if k[|t.key|..] == key[|t.key|..] then Some(v) else Lookup(t.child, k[|t.key|..]);
      }
    }
  }

  /** insert never fails on a represented tree, stores exactly the new entry, and keeps the shape. */
  lemma {:induction false} InsertCorrect(e: Env, gen: Uint16, n: Node, p: Hex, key: Hex, v: Entry, t: Tree)
    returns (t': Tree)
    requires Hash32(e.h) && KeyRest(key) && v.val != []
    requires Rep(e, n, p, t) && WellFormedAt(t, key)
    ensures var o := Insert(e.db, gen, n, p, key, Value(v.val, v.meta));
            o.Ok? && Rep(e, o.value.node, p, t') && (o.value.dirty <==> t' != t)
    ensures !t'.TNil? && WellFormedAt(t', key) && Stored(t, t', key, v) && (t.TFull? ==> t'.TFull?)
    decreases |key|, if n.RefNode? then 2 else 1
  {
    hide FlagsOk, Loads, RefOk, Resolve, ValidHex, Branch, TBranch, Stored;
    var value := Value(v.val, v.meta);
    if key == [] {
      t' := TVal(v.val, v.meta);
      StoredAtEnd(t, v);
      if n.RefNode? { RefLeadsToNode(e, n.ref, p, t); }
    } else {
      match n
      case Nil =>
        t' := TShort(key, TVal(v.val, v.meta));
        StoredInNil(key, v);
        NewFlagOk(e, gen, p, t');
      case Short(k, c, f) =>
        t' := InsertShort(e, gen, n, p, key, v, t);
      case Full(cs, f) =>
        var i := key[0];
        FullStep(t, key);
        var c' := InsertCorrect(e, gen, cs[i], p + [i], key[1..], v, t.children[i]);
        t' := TFull(t.children[i := c']);
        StoredInFull(t, i, c', key, v);
        NewFlagOk(e, gen, p, t');
        var o := Insert(e.db, gen, cs[i], p + [i], key[1..], value).value;
        assert RepChildren(e, cs[i := o.node], p, t');
      case RefNode(r) =>
        ResolveRep(e, gen, r, p, t);
        t' := InsertCorrect(e, gen, Resolve(e.db, gen, r, p).value, p, key, v, t);
    }
  }

  lemma StoredAtEnd(t: Tree, v: Entry)
    requires WellFormedAt(t, [])
    ensures Stored(t, TVal(v.val, v.meta), [], v)
  {
  }

  lemma StoredInNil(key: Hex, v: Entry)
    requires Terminated(key) && v.val != []
    ensures var t' := TShort(key, TVal(v.val, v.meta)); Stored(TNil, t', key, v) && TrieTree.Node(t')
  {
  }

  lemma {:induction false} InsertShort(e: Env, gen: Uint16, n: Node, p: Hex, key: Hex, v: Entry, t: Tree)
    returns (t': Tree)
    requires Hash32(e.h) && Terminated(key) && v.val != [] && n.Short?
    requires Rep(e, n, p, t) && TrieTree.Node(t)
    ensures var o := Insert(e.db, gen, n, p, key, Value(v.val, v.meta));
            o.Ok? && Rep(e, o.value.node, p, t') && (o.value.dirty <==> t' != t)
    ensures !t'.TNil? && WellFormedAt(t', key) && Stored(t, t', key, v)
    decreases |key|, 0
  {
    hide FlagsOk, Loads, RefOk, Resolve, ValidHex, Branch, TBranch, Stored;
    var Short(k, c, f) := n;
    var m := PrefixLen(key, k);
    if m == |k| {
      assert key[..m] == k && k <= key;
      ShortStep(t, key);
      var c' := InsertCorrect(e, gen, c, p + key[..m], key[m..], v, t.child);
      t' := TShort(k, c');
      StoredInShort(t, c', key, v);
      NewFlagOk(e, gen, p, t');
    } else {
      KeysFork(key, k, m);
      t' := TBranch(k, t.child, key, v, m);
      BranchRep(e, gen, p, k, c, t.child, key, v, m);
      TBranchWellFormed(k, t.child, key, v, m);
      StoredInBranch(t, key, v, m);
    }
  }

  /** A terminated key cannot end inside another key. */
  lemma KeysFork(key: Hex, k: Hex, m: nat)
    requires Terminated(key) && ValidHex(k) && m < |k| && m == PrefixLen(key, k)
    ensures m < |key| && k[m] != key[m] && k[..m] == key[..m]
  {
    assert forall i :: 0 <= i < m ==> k[i] == k[..m][i] == key[..m][i] == key[i];
  }

  lemma StoredInBranch(t: Tree, key: Hex, v: Entry, m: nat)
    requires t.TShort? && m < |t.key| && m < |key| && t.key[..m] == key[..m] && t.key[m] != key[m]
    ensures var t' := TBranch(t.key, t.child, key, v, m); Stored(t, t', key, v) && t' != t
  {
    var t' := TBranch(t.key, t.child, key, v, m);
    forall k: Hex ensures Lookup(t', k) == if k == key then Some(v) else Lookup(t, k) {
      TBranchLookup(t.key, t.child, key, v, m, k);
    }
    TBranchLookup(t.key, t.child, key, v, m, key);
  }
}
