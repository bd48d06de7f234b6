/**
 The tree of blocks.  A block id starts with the block number (block/header.go:116-123, 304-307), and a
 block's number is one more than its parent's.
 */
module BlockTree {
  import opened ByteStrings

  type Id = b: Bytes | |b| == 32 witness seq(32, _ => 0)

  function Number(id: Id): Uint32 {
    NumberFits(id[0], id[1], id[2], id[3]);
    JoinUint32(id[0], id[1], id[2], id[3])
  }

  lemma NumberFits(a: Byte, b: Byte, c: Byte, d: Byte)
    ensures JoinUint32(a, b, c, d) < 0x1_0000_0000
  {
  }

  lemma NumberBytes(id: Id)
    ensures Uint32Bytes(Number(id)) == id[..4]
  {
    Digits(id[0], id[1], id[2], id[3]);
  }

  lemma Digits(a: Byte, b: Byte, c: Byte, d: Byte)
    ensures var n := JoinUint32(a, b, c, d);
            n / 0x100_0000 == a && n / 0x1_0000 % 256 == b && n / 256 % 256 == c && n % 256 == d
  {
    var n := JoinUint32(a, b, c, d);
    var ab, abc := JoinUint32(0, 0, a, b), JoinUint32(0, a, b, c);
    assert n / 0x1_0000 == ab by { assert n == ab * 0x1_0000 + JoinUint32(0, 0, c, d); }
    assert n / 256 == abc by { assert n == abc * 256 + d as nat; }
    assert ab % 256 == b;
    assert abc % 256 == c by { assert abc == ab * 256 + c as nat; }
  }

  /** The blocks known so far: the genesis block, and every other block with its parent. */
  datatype Blocks = Blocks(genesis: Id, parent: map<Id, Id>) {

    predicate Has(id: Id) { id == genesis || id in parent }

    ghost predicate Valid() {
      && Number(genesis) == 0 && genesis !in parent
      && forall id {:trigger parent[id]} :: id in parent ==> Has(parent[id]) && Number(id) == Number(parent[id]) + 1
    }

    /** The block at height n on the chain that ends in head, by following parent links. */
    function Ancestor(head: Id, n: nat): (id: Id)
      requires Valid() && Has(head) && n <= Number(head)
      ensures Has(id) && Number(id) == n
      decreases Number(head)
    {
      if Number(head) == n then head else Ancestor(parent[head], n)
    }

    /** Whether a block is head or one of its ancestors. */
    ghost predicate OnChain(head: Id, id: Id)
      requires Valid() && Has(head)
    {
      Number(id) <= Number(head) && Ancestor(head, Number(id)) == id
    }

    function Add(id: Id, p: Id): Blocks { this.(parent := parent[id := p]) }
  }

  lemma {:induction false} AncestorOfAncestor(b: Blocks, head: Id, n: nat, m: nat)
    requires b.Valid() && b.Has(head) && m <= n <= Number(head)
    ensures b.Ancestor(b.Ancestor(head, n), m) == b.Ancestor(head, m)
    decreases Number(head)
  {
    if Number(head) != n { AncestorOfAncestor(b, b.parent[head], n, m); }
  }

  lemma {:induction false} AncestorIsGenesis(b: Blocks, head: Id)
    requires b.Valid() && b.Has(head)
    ensures b.Ancestor(head, 0) == b.genesis
    decreases Number(head)
  {
    if Number(head) != 0 { AncestorIsGenesis(b, b.parent[head]); }
  }

  lemma AddValid(b: Blocks, id: Id, p: Id)
    requires b.Valid() && !b.Has(id) && b.Has(p) && Number(id) == Number(p) + 1
    ensures b.Add(id, p).Valid()
  {
  }

  /** A new block changes nothing about the chains of the others. */
  lemma {:induction false} AddKeepsAncestors(b: Blocks, id: Id, p: Id, head: Id, n: nat)
    requires b.Valid() && !b.Has(id) && b.Has(p) && Number(id) == Number(p) + 1
    requires b.Has(head) && n <= Number(head)
    ensures b.Add(id, p).Valid() && b.Add(id, p).Has(head)
    ensures b.Add(id, p).Ancestor(head, n) == b.Ancestor(head, n)
    decreases Number(head)
  {
    AddValid(b, id, p);
    if Number(head) != n { AddKeepsAncestors(b, id, p, b.parent[head], n); }
  }

  /** Everything below a block on a chain is on that chain too. */
  lemma ChainsNest(b: Blocks, head: Id, mid: Id, id: Id)
    requires b.Valid() && b.Has(head) && b.Has(mid) && b.OnChain(head, mid) && b.OnChain(mid, id)
    ensures b.OnChain(head, id)
  {
    AncestorOfAncestor(b, head, Number(mid), Number(id));
  }
}
