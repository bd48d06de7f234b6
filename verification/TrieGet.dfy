/** Reading a key (trie/trie.go, tryGet). */
module TrieGet {
  import opened ByteStrings
  import opened HexPrefix
  import opened TrieNode
  import opened TrieTree
  import opened TrieMerkle
  import opened TrieStore

  datatype Got = Got(value: Option<Entry>, node: Node, resolved: bool)

  /** tryGet: the value, and the node with the refs on the way replaced by what they lead to. */
  function TryGet(db: Db, gen: Uint16, n: Node, key: Hex, pos: nat): Outcome<Got>
    requires pos <= |key|
    decreases |key| - pos, if n.RefNode? then 1 else 0
  {
    match n
    case Nil => Ok(Got(None, n, false))
    case Value(v, m) => Ok(Got(Some(Entry(v, m)), n, false))
    case Short(k, c, f) =>
      if |key| - pos < |k| || k != key[pos..pos + |k|] then Ok(Got(None, n, false))
      else if k == [] then Corrupt
      else (
        match TryGet(db, gen, c, key, pos + |k|)
        case Ok(g) =>
          Ok(Got(g.value, if g.resolved then Short(k, g.node, f.(gen := gen)) else n, g.resolved))
        case err => err
      )
    case Full(cs, f) =>
      if pos == |key| || key[pos] >= |cs| then Corrupt
      else (
        match TryGet(db, gen, cs[key[pos]], key, pos + 1)
        case Ok(g) =>
          Ok(Got(g.value, if g.resolved then Full(cs[key[pos] := g.node], f.(gen := gen)) else n, g.resolved))
        case err => err
      )
    case RefNode(r) =>
      match Resolve(db, gen, r, key[..pos])
      case Missing(r, p) => Missing(r, p)
      case Corrupt => Corrupt
      case Ok(child) =>
        match TryGet(db, gen, child, key, pos)
        case Ok(g) => Ok(Got(g.value, g.node, true))
        case err => err
  }

  /** Below a full node the rest of a key leads to a child that is well formed there. */
  lemma FullStep(t: Tree, k: Hex)
    requires t.TFull? && TrieTree.Node(t) && Terminated(k)
    ensures KeyRest(k[1..]) && WellFormedAt(t.children[k[0]], k[1..])
    ensures k[0] == 16 <==> k[1..] == []
  {
  }

  /** Below a short node whose key matches, likewise. */
  lemma ShortStep(t: Tree, k: Hex)
    requires t.TShort? && TrieTree.Node(t) && Terminated(k) && t.key <= k
    ensures KeyRest(k[|t.key|..]) && WellFormedAt(t.child, k[|t.key|..])
    ensures HasTerm(t.key) <==> k[|t.key|..] == []
  {
    assert t.key[|t.key| - 1] == k[|t.key| - 1];
  }

  /** What a read of the rest of a key below a represented tree must give. */
  ghost predicate ReadOk(e: Env, o: Outcome<Got>, key: Hex, pos: nat, t: Tree)
    requires pos <= |key|
  {
    o.Ok? && o.value.value == Lookup(t, key[pos..]) && Rep(e, o.value.node, key[..pos], t)
  }

  lemma ReadShort(e: Env, gen: Uint16, n: Node, key: Hex, pos: nat, t: Tree)
    requires n.Short? && pos <= |key| && n.key <= key[pos..] && Rep(e, n, key[..pos], t) && TrieTree.Node(t)
    requires t.TShort? && ReadOk(e, TryGet(e.db, gen, n.child, key, pos + |n.key|), key, pos + |n.key|, t.child)
    ensures ReadOk(e, TryGet(e.db, gen, n, key, pos), key, pos, t)
  {
    hide FlagsOk, Loads, RefOk, Resolve, ValidHex;
    var pos' := pos + |n.key|;
    assert key[pos..pos'] == key[pos..][..|n.key|] == n.key;
    assert key[pos'..] == key[pos..][|n.key|..] && key[..pos'] == key[..pos] + n.key;
    GenIrrelevant(e, n.flags, gen, key[..pos], t);
  }

  lemma ReadFull(e: Env, gen: Uint16, n: Node, key: Hex, pos: nat, t: Tree)
    requires n.Full? && pos < |key| && t.TFull? && Rep(e, n, key[..pos], t) && key[pos] < 17
    requires |n.children| == 17 && |t.children| == 17
    requires ReadOk(e, TryGet(e.db, gen, n.children[key[pos]], key, pos + 1), key, pos + 1, t.children[key[pos]])
    ensures ReadOk(e, TryGet(e.db, gen, n, key, pos), key, pos, t)
  {
    hide FlagsOk, Loads, RefOk, Resolve, ValidHex;
    var i, p, rest := key[pos], key[..pos], key[pos..];
    assert rest[0] == i && key[pos + 1..] == rest[1..] && key[..pos + 1] == p + [i];
    var o := TryGet(e.db, gen, n.children[i], key, pos + 1).value;
    assert RepChildren(e, n.children[i := o.node], p, t);
    GenIrrelevant(e, n.flags, gen, p, t);
  }

  /** Nothing there, a value at the end of its key, or another key. */
  lemma ReadHere(e: Env, gen: Uint16, n: Node, key: Hex, pos: nat, t: Tree)
    requires pos <= |key| && KeyRest(key[pos..]) && Rep(e, n, key[..pos], t) && WellFormedAt(t, key[pos..])
    requires n.Nil? || n.Value? || (n.Short? && !(n.key <= key[pos..]))
    ensures ReadOk(e, TryGet(e.db, gen, n, key, pos), key, pos, t)
  {
    hide FlagsOk, Loads, RefOk, Resolve, ValidHex;
    if n.Short? && |key| - pos >= |n.key| {
      assert key[pos..pos + |n.key|] == key[pos..][..|n.key|];
    }
  }

  lemma ReadRef(e: Env, gen: Uint16, r: Ref, key: Hex, pos: nat, t: Tree)
    requires pos <= |key| && Resolve(e.db, gen, r, key[..pos]).Ok?
    requires !Resolve(e.db, gen, r, key[..pos]).value.RefNode?
    requires ReadOk(e, TryGet(e.db, gen, Resolve(e.db, gen, r, key[..pos]).value, key, pos), key, pos, t)
    ensures ReadOk(e, TryGet(e.db, gen, RefNode(r), key, pos), key, pos, t)
  {
    hide Rep, Lookup, Resolve;
  }

  /** tryGet never fails on a represented tree, finds what the tree holds, and keeps the tree. */
  lemma {:induction false} TryGetCorrect(e: Env, gen: Uint16, n: Node, key: Hex, pos: nat, t: Tree)
    requires Hash32(e.h) && pos <= |key| && KeyRest(key[pos..])
    requires Rep(e, n, key[..pos], t) && WellFormedAt(t, key[pos..])
    ensures ReadOk(e, TryGet(e.db, gen, n, key, pos), key, pos, t)
    decreases |key| - pos, if n.RefNode? then 1 else 0
  {
    hide FlagsOk, Loads, RefOk, Resolve, ValidHex, TryGet, ReadOk, Lookup;
    var p, rest := key[..pos], key[pos..];
    match n
    case Nil => ReadHere(e, gen, n, key, pos, t);
    case Value(_, _) => ReadHere(e, gen, n, key, pos, t);
    case Short(k, c, f) =>
      if k <= rest {
        var pos' := pos + |k|;
        assert key[pos'..] == rest[|k|..] && key[..pos'] == p + k;
        ShortStep(t, rest);
        TryGetCorrect(e, gen, c, key, pos', t.child);
        ReadShort(e, gen, n, key, pos, t);
      } else {
        ReadHere(e, gen, n, key, pos, t);
      }
    case Full(cs, f) =>
      assert rest[0] == key[pos] && key[pos + 1..] == rest[1..] && key[..pos + 1] == p + [key[pos]];
      FullStep(t, rest);
      TryGetCorrect(e, gen, cs[key[pos]], key, pos + 1, t.children[key[pos]]);
      ReadFull(e, gen, n, key, pos, t);
    case RefNode(r) =>
      ResolveRep(e, gen, r, p, t);
      TryGetCorrect(e, gen, Resolve(e.db, gen, r, p).value, key, pos, t);
      ReadRef(e, gen, r, key, pos, t);
  }
}
