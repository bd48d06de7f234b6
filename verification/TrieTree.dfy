/**
 The trie without its store: the tree that the nodes in memory and in the database stand for.

 A tree is well formed in the sense of Appendix D of the Ethereum Yellow Paper: no short node below a
 short node, at least two children in a full node, a value exactly behind a terminator.  The main
 result is that a well-formed tree is determined by the map it holds.
 */
module TrieTree {
  import opened ByteStrings
  import opened HexPrefix

  datatype Tree =
    | TNil
    | TVal(val: Bytes, meta: Bytes)
    | TShort(key: Hex, child: Tree)
    | TFull(children: seq<Tree>)

  datatype Entry = Entry(val: Bytes, meta: Bytes)

  type Contents = map<Hex, Entry>

  // ---- meaning ----

  function Lookup(t: Tree, k: Hex): Option<Entry>
    decreases t
  {
    match t
    case TNil => None
    case TVal(v, m) => if k == [] then Some(Entry(v, m)) else None
    case TShort(key, c) => if key <= k then Lookup(c, k[|key|..]) else None
    case TFull(cs) => if k != [] && k[0] < |cs| then Lookup(cs[k[0]], k[1..]) else None
  }

  function Find(m: Contents, k: Hex): Option<Entry> { if k in m then Some(m[k]) else None }

  ghost predicate Agrees(t: Tree, m: Contents) { forall k: Hex :: Lookup(t, k) == Find(m, k) }

  // ---- shape ----

  predicate IsVal(t: Tree) { t.TVal? && t.val != [] }

  /** A well-formed short or full node. */
  predicate Node(t: Tree)
    decreases t
  {
    match t
    case TNil => false
    case TVal(_, _) => false
    case TShort(key, c) =>
      && key != [] && ValidHex(key)
      && (if HasTerm(key) then IsVal(c) else c.TFull? && Node(c))
    case TFull(cs) =>
      && |cs| == 17
      && (forall i :: 0 <= i < 16 ==> cs[i].TNil? || Node(cs[i]))
      && (cs[16].TNil? || IsVal(cs[16]))
      && TwoChildren(cs)
  }

  predicate TwoChildren(cs: seq<Tree>) {
    exists i, j :: 0 <= i < j < |cs| && !cs[i].TNil? && !cs[j].TNil?
  }

  /** A well-formed subtree at a place where the rest of a key is k. */
  predicate WellFormedAt(t: Tree, k: Hex) {
    t.TNil? || (if k == [] then IsVal(t) else Node(t))
  }

  predicate WellFormed(t: Tree) { t.TNil? || Node(t) }

  /** The rest of a key at some place in the tree: a terminated key, or nothing behind the terminator. */
  predicate KeyRest(k: Hex) { k == [] || Terminated(k) }

  // ---- every node holds a key ----

  /** Some key of a well-formed subtree. */
  ghost function AnyKey(t: Tree): (k: Hex)
    requires Node(t) || IsVal(t)
    ensures Lookup(t, k).Some?
    ensures IsVal(t) <==> k == []
    ensures KeyRest(k)
    decreases t
  {
    match t
    case TVal(_, _) => []
    case TShort(key, c) =>
      var sub := AnyKey(c);
      var k := key + sub;
      assert k[..|key|] == key && k[|key|..] == sub;
      k
    case TFull(cs) =>
      var i :| 0 <= i < 17 && !cs[i].TNil?;
      ChildKey(t, i)
  }

  /** Some key of a full node that goes through child i. */
  ghost function ChildKey(t: Tree, i: nat): (k: Hex)
    requires t.TFull? && Node(t) && i < 17 && !t.children[i].TNil?
    ensures k != [] && k[0] == i && Lookup(t, k).Some? && Terminated(k)
    decreases t, 0
  {
    var sub := AnyKey(t.children[i]);
    var k := [i] + sub;
    assert k[1..] == sub;
    assert i < 16 ==> Node(t.children[i]) && !IsVal(t.children[i]) && sub != [];
    assert i == 16 ==> sub == [];
    k
  }

  // ---- one tree per map ----

  ghost predicate SameKeys(a: Tree, b: Tree) { forall k: Hex :: Lookup(a, k) == Lookup(b, k) }

  lemma FullHasTwoHeads(t: Tree) returns (k: Hex, l: Hex)
    requires t.TFull? && Node(t)
    ensures k != [] && l != [] && k[0] != l[0] && Lookup(t, k).Some? && Lookup(t, l).Some?
  {
    var i, j :| 0 <= i < j < |t.children| && !t.children[i].TNil? && !t.children[j].TNil?;
    k, l := ChildKey(t, i), ChildKey(t, j);
  }

  lemma ShortIsNotFull(a: Tree, b: Tree) returns (k: Hex)
    requires a.TShort? && Node(a) && b.TFull? && Node(b)
    ensures Lookup(a, k) != Lookup(b, k)
  {
    var l;
    k, l := FullHasTwoHeads(b);
    if Lookup(a, k).Some? { k := l; }
  }

  lemma LongerKeyDiffers(a: Tree, b: Tree) returns (k: Hex)
    requires a.TShort? && Node(a) && b.TShort? && Node(b) && a.key < b.key
    ensures Lookup(a, k) != Lookup(b, k)
  {
    assert b.key[|a.key| - 1] < 16;
    var p, q := FullHasTwoHeads(a.child);
    assert (a.key + p)[|a.key|..] == p && (a.key + q)[|a.key|..] == q;
    assert (a.key + p)[|a.key|] != (a.key + q)[|a.key|];
    k := if b.key <= a.key + p then a.key + q else a.key + p;
  }

  lemma ShortKeysDiffer(a: Tree, b: Tree) returns (k: Hex)
    requires a.TShort? && Node(a) && b.TShort? && Node(b) && a.key != b.key
    ensures Lookup(a, k) != Lookup(b, k)
  {
    k := AnyKey(a);
    if b.key <= k {
      assert a.key <= k;
      if |a.key| < |b.key| {
        assert a.key == k[..|b.key|][..|a.key|];
        k := LongerKeyDiffers(a, b);
      } else {
        assert b.key == k[..|a.key|][..|b.key|] == a.key[..|b.key|];
        k := LongerKeyDiffers(b, a);
      }
    }
  }

  lemma SameChild(a: Tree, b: Tree, i: nat)
    requires a.TFull? && b.TFull? && |a.children| == |b.children| == 17 && i < 17 && SameKeys(a, b)
    ensures SameKeys(a.children[i], b.children[i])
  {
    forall k: Hex ensures Lookup(a.children[i], k) == Lookup(b.children[i], k) {
      var k' := [i] + k;
      assert k'[1..] == k;
      assert Lookup(a, k') == Lookup(b, k');
    }
  }

  /** Two well-formed trees that hold the same map are the same tree. */
  lemma {:induction false} Canonical(a: Tree, b: Tree)
    requires a.TNil? || IsVal(a) || Node(a)
    requires b.TNil? || IsVal(b) || Node(b)
    requires SameKeys(a, b)
    ensures a == b
    decreases a
  {
    hide AnyKey;
    if !a.TNil? { assert Lookup(b, AnyKey(a)).Some?; }
    if !b.TNil? { assert Lookup(a, AnyKey(b)).Some?; }
    match a
    case TNil =>
    case TVal(_, _) =>
    case TShort(key, c) =>
      if b.TFull? {
        var k := ShortIsNotFull(a, b);
      } else if b.key != key {
        var k := ShortKeysDiffer(a, b);
      } else {
        forall k: Hex ensures Lookup(c, k) == Lookup(b.child, k) {
          assert (key + k)[|key|..] == k;
          assert Lookup(a, key + k) == Lookup(b, key + k);
        }
        Canonical(c, b.child);
      }
    case TFull(cs) =>
      if b.TShort? {
        var k := ShortIsNotFull(b, a);
      } else {
        forall i | 0 <= i < 17 ensures cs[i] == b.children[i] {
          SameChild(a, b, i);
          Canonical(cs[i], b.children[i]);
        }
      }
  }

  lemma OneTreePerMap(a: Tree, b: Tree, m: Contents)
    requires WellFormed(a) && WellFormed(b) && Agrees(a, m) && Agrees(b, m)
    ensures a == b
  {
    Canonical(a, b);
  }
}
