/**
 Trie nodes and their storage format (trie/node.go, trie/vp.go).

 A node held in memory is a value: every operation of the trie copies a node before it changes it.
 A nil hash is the empty byte string.
 */
module TrieNode {
  import opened ByteStrings
  import opened HexPrefix

  datatype Version = Version(major: Uint32, minor: Uint32)

  datatype Ref = Ref(hash: Bytes, ver: Version)

  const NO_REF := Ref([], Version(0, 0))

  datatype Flags = Flags(ref: Ref, gen: Uint16, dirty: bool)

  datatype Node =
    | Nil
    | Full(children: seq<Node>, flags: Flags)
    | Short(key: Hex, child: Node, flags: Flags)
    | RefNode(ref: Ref)
    | Value(val: Bytes, meta: Bytes)

  const WIDTH := 17

  // node kinds (low three bits of a tag)
  const KIND_EMPTY := 0
  const KIND_FULL := 1
  const KIND_SHORT := 2
  const KIND_REF := 3
  const KIND_VALUE := 4

  // node attributes (high five bits of a tag)
  const HAS_HASH := 1
  const HAS_MAJOR := 2
  const HAS_MINOR := 4
  const HAS_META := 8
  const HAS_MANY_REF := 16

  function Tag(kind: nat, attrs: nat): Byte
    requires kind < 8 && attrs < 32
  {
    kind + 8 * attrs
  }

  predicate HasAttr(attrs: nat, bit: nat)
    requires bit > 0
  {
    attrs / bit % 2 == 1
  }

  // ---- strings with a varint length ----

  function EncodeString(s: Bytes): Bytes { Uvarint(|s|) + s }

  function TakeString(buf: Bytes): (r: Split<Bytes>)
    ensures r.Taken? ==> |r.rest| < |buf|
  {
    match TakeUvarint(buf)
    case Bad => Bad
    case Taken(n, rest) => if n > |rest| then Bad else Taken(rest[..n], rest[n..])
  }

  lemma StringRoundTrip(s: Bytes, rest: Bytes)
    requires |s| < TWO64
    ensures TakeString(EncodeString(s) + rest) == Taken(s, rest)
  {
    assert EncodeString(s) + rest == Uvarint(|s|) + (s + rest);
    UvarintRoundTrip(|s|, s + rest);
    assert (s + rest)[..|s|] == s && (s + rest)[|s|..] == rest;
  }

  // ---- encoding ----

  function EncodeRef(r: Ref, skipHash: bool): Bytes {
    [Tag(KIND_REF, RefAttrs(r, skipHash))] + RefBody(r, skipHash)
  }

  function RefBody(r: Ref, skipHash: bool): Bytes {
    (if skipHash then [] else r.hash)
    + (if r.ver.major != 0 then Uint32Bytes(r.ver.major) else [])
    + (if r.ver.minor != 0 then Uint32Bytes(r.ver.minor) else [])
  }

  function RefAttrs(r: Ref, skipHash: bool): (a: nat)
    ensures a < 8
  {
    (if skipHash then 0 else HAS_HASH)
    + (if r.ver.major != 0 then HAS_MAJOR else 0)
    + (if r.ver.minor != 0 then HAS_MINOR else 0)
  }

  function ValueAttrs(meta: Bytes): nat { if |meta| > 0 then HAS_META else 0 }

  function ValueBody(val: Bytes, meta: Bytes): Bytes {
    EncodeString(val) + (if |meta| > 0 then EncodeString(meta) else [])
  }

  /** What encode needs of a ref: with hashes on, exactly the 32 bytes decodeRef will take back. */
  predicate EncodableRef(r: Ref, skipHash: bool) { skipHash || |r.hash| == 32 }

  predicate Clean(n: Node) { (n.Full? || n.Short?) && !n.flags.dirty }

  /** The nodes encode and decode agree on: valid keys, a value exactly under a terminator, sizes in range. */
  predicate Encodable(n: Node, skipHash: bool)
    decreases n, 0
  {
    match n
    case Nil => true
    case Value(val, meta) => |val| < TWO64 && |meta| < TWO64
    case RefNode(r) => EncodableRef(r, skipHash)
    case Full(cs, _) => |cs| == WIDTH && forall i :: 0 <= i < |cs| ==> EncodableChild(cs[i], skipHash)
    case Short(k, c, _) =>
      && ValidHex(k) && CompactLen(k) < 0x1_0000_0000
      && (HasTerm(k) <==> c.Value?) && !c.Nil? && EncodableChild(c, skipHash)
  }

  predicate EncodableChild(c: Node, skipHash: bool)
    decreases c, 1
  {
    if Clean(c) then EncodableRef(c.flags.ref, skipHash) else Encodable(c, skipHash)
  }

  function CountRefs(cs: seq<Node>): nat {
    if cs == [] then 0 else (if cs[0].RefNode? then 1 else 0) + CountRefs(cs[1..])
  }

  function Encode(n: Node, skipHash: bool): (b: Bytes)
    requires Encodable(n, skipHash)
    ensures |b| > 0
    decreases n, 1
  {
    match n
    case Nil => [KIND_EMPTY]
    case Value(val, meta) => [Tag(KIND_VALUE, ValueAttrs(meta))] + ValueBody(val, meta)
    case RefNode(r) => EncodeRef(r, skipHash)
    case Full(cs, _) =>
      [Tag(KIND_FULL, if CountRefs(cs) > 4 then HAS_MANY_REF else 0)] + EncodeChildren(cs, skipHash)
    case Short(k, c, _) =>
      if HasTerm(k) then
        [Tag(KIND_SHORT, ValueAttrs(c.meta))] + EncodeKey(k) + ValueBody(c.val, c.meta)
      else
        [Tag(KIND_SHORT, 0)] + EncodeKey(k) + EncodeChild(c, skipHash)
  }

  /** A child that is already stored on its own is written as its ref, any other is embedded. */
  function EncodeChild(c: Node, skipHash: bool): (b: Bytes)
    requires EncodableChild(c, skipHash)
    ensures |b| > 0
    decreases c, 2
  {
    if Clean(c) then EncodeRef(c.flags.ref, skipHash) else Encode(c, skipHash)
  }

  function EncodeChildren(cs: seq<Node>, skipHash: bool): Bytes
    requires forall i :: 0 <= i < |cs| ==> EncodableChild(cs[i], skipHash)
    decreases cs, 0
  {
    if cs == [] then [] else EncodeChild(cs[0], skipHash) + EncodeChildren(cs[1..], skipHash)
  }

  /** The compact key behind its length, which the code narrows to 32 bits. */
  function EncodeKey(k: Hex): Bytes
    requires ValidHex(k)
  {
    Uvarint(CompactLen(k) % 0x1_0000_0000) + HexToCompact(k)
  }

  // ---- decoding ----

  function TopFlags(ref: Option<Ref>, gen: Uint16): Flags {
    match ref
    case Some(r) => Flags(r, gen, false)
    case None => Flags(NO_REF, gen, true)
  }

  function DecodeNode(ref: Option<Ref>, buf: Bytes, gen: Uint16): (r: Split<Node>)
    ensures r.Taken? ==> |r.rest| < |buf|
    decreases |buf|, 0
  {
    if buf == [] then Bad
    else
      var kind, attrs := buf[0] % 8, buf[0] / 8;
      if kind == KIND_EMPTY then Taken(Nil, buf[1..])
      else if kind == KIND_FULL then
        match DecodeChildren(buf[1..], WIDTH, gen)
        case Bad => Bad
        case Taken(cs, rest) => Taken(Full(cs, TopFlags(ref, gen)), rest)
      else if kind == KIND_SHORT then DecodeShort(ref, buf[1..], gen, attrs)
      else if kind == KIND_REF then DecodeRef(buf[1..], attrs)
      else if kind == KIND_VALUE then DecodeValue(buf[1..], attrs)
      else Bad
  }

  function DecodeChildren(buf: Bytes, k: nat, gen: Uint16): (r: Split<seq<Node>>)
    ensures r.Taken? ==> |r.rest| <= |buf| && |r.value| == k
    decreases |buf|, k + 1
  {
    if k == 0 then Taken([], buf)
    else
      match DecodeNode(None, buf, gen)
      case Bad => Bad
      case Taken(c, rest) =>
        match DecodeChildren(rest, k - 1, gen)
        case Bad => Bad
        case Taken(cs, rest') => Taken([c] + cs, rest')
  }

  function DecodeShort(ref: Option<Ref>, buf: Bytes, gen: Uint16, attrs: nat): (r: Split<Node>)
    ensures r.Taken? ==> |r.rest| <= |buf|
    decreases |buf|, 0
  {
    match TakeString(buf)
    case Bad => Bad
    case Taken(compact, rest) =>
      var key := CompactToHex(compact);
      match (if HasTerm(key) then DecodeValue(rest, attrs) else DecodeNode(None, rest, gen))
      case Bad => Bad
      case Taken(c, rest') => Taken(Short(key, c, TopFlags(ref, gen)), rest')
  }

  function DecodeValue(buf: Bytes, attrs: nat): (r: Split<Node>)
    ensures r.Taken? ==> |r.rest| <= |buf|
  {
    match TakeString(buf)
    case Bad => Bad
    case Taken(val, rest) =>
      if HasAttr(attrs, HAS_META) then
        match TakeString(rest)
        case Bad => Bad
        case Taken(meta, rest') => Taken(Value(val, meta), rest')
      else Taken(Value(val, []), rest)
  }

  function DecodeRef(buf: Bytes, attrs: nat): (r: Split<Node>)
    ensures r.Taken? ==> |r.rest| <= |buf|
  {
    match TakeHash(buf, HasAttr(attrs, HAS_HASH))
    case Bad => Bad
    case Taken(hash, rest) =>
      match TakeNumber(rest, HasAttr(attrs, HAS_MAJOR))
      case Bad => Bad
      case Taken(major, rest') =>
        match TakeNumber(rest', HasAttr(attrs, HAS_MINOR))
        case Bad => Bad
        case Taken(minor, rest'') => Taken(RefNode(Ref(hash, Version(major, minor))), rest'')
  }

  function TakeHash(buf: Bytes, present: bool): Split<Bytes> {
    if !present then Taken([], buf)
    else if |buf| < 32 then Bad
    else Taken(buf[..32], buf[32..])
  }

  function TakeNumber(buf: Bytes, present: bool): Split<Uint32> {
    if present then TakeUint32(buf) else Taken(0, buf)
  }

  // ---- what a stored node comes back as ----

  function DropHash(r: Ref, skipHash: bool): Ref { if skipHash then Ref([], r.ver) else r }

  /** The node read back: stored children come back as refs, embedded ones as fresh dirty nodes. */
  function Reload(n: Node, skipHash: bool, ref: Option<Ref>, gen: Uint16): Node
    decreases n, 1
  {
    match n
    case Nil => Nil
    case Value(_, _) => n
    case RefNode(r) => RefNode(DropHash(r, skipHash))
    case Full(cs, _) => Full(ReloadChildren(cs, skipHash, gen), TopFlags(ref, gen))
    case Short(k, c, _) => Short(k, ReloadChild(c, skipHash, gen), TopFlags(ref, gen))
  }

  function ReloadChild(c: Node, skipHash: bool, gen: Uint16): Node
    decreases c, 2
  {
    if Clean(c) then RefNode(DropHash(c.flags.ref, skipHash)) else Reload(c, skipHash, None, gen)
  }

  function ReloadChildren(cs: seq<Node>, skipHash: bool, gen: Uint16): (r: seq<Node>)
    ensures |r| == |cs|
    ensures forall i :: 0 <= i < |cs| ==> r[i] == ReloadChild(cs[i], skipHash, gen)
    decreases cs, 0
  {
    if cs == [] then [] else [ReloadChild(cs[0], skipHash, gen)] + ReloadChildren(cs[1..], skipHash, gen)
  }

  // ---- round trips ----

  lemma TagRoundTrip(kind: nat, attrs: nat)
    requires kind < 8 && attrs < 32
    ensures Tag(kind, attrs) % 8 == kind && Tag(kind, attrs) / 8 == attrs
  {
  }

  lemma RefAttrsReadBack(r: Ref, skipHash: bool)
    ensures HasAttr(RefAttrs(r, skipHash), HAS_HASH) <==> !skipHash
    ensures HasAttr(RefAttrs(r, skipHash), HAS_MAJOR) <==> r.ver.major != 0
    ensures HasAttr(RefAttrs(r, skipHash), HAS_MINOR) <==> r.ver.minor != 0
  {
  }

  lemma NumberRoundTrip(x: Uint32, rest: Bytes)
    ensures TakeNumber((if x != 0 then Uint32Bytes(x) else []) + rest, x != 0) == Taken(x, rest)
  {
    if x != 0 {
      Uint32RoundTrip(x, rest);
    } else {
      assert [] + rest == rest;
    }
  }

  lemma HashRoundTrip(hash: Bytes, present: bool, rest: Bytes)
    requires present ==> |hash| == 32
    ensures TakeHash((if present then hash else []) + rest, present) ==
            Taken(if present then hash else [], rest)
  {
    if present {
      assert (hash + rest)[..32] == hash && (hash + rest)[32..] == rest;
    } else {
      assert [] + rest == rest;
    }
  }

  lemma RefBodyRoundTrip(r: Ref, skipHash: bool, rest: Bytes)
    requires EncodableRef(r, skipHash)
    ensures DecodeRef(RefBody(r, skipHash) + rest, RefAttrs(r, skipHash)) ==
            Taken(RefNode(DropHash(r, skipHash)), rest)
  {
    var minor := (if r.ver.minor != 0 then Uint32Bytes(r.ver.minor) else []) + rest;
    var major := (if r.ver.major != 0 then Uint32Bytes(r.ver.major) else []) + minor;
    assert RefBody(r, skipHash) + rest == (if !skipHash then r.hash else []) + major;
    RefAttrsReadBack(r, skipHash);
    HashRoundTrip(r.hash, !skipHash, major);
    NumberRoundTrip(r.ver.major, minor);
    NumberRoundTrip(r.ver.minor, rest);
  }

  lemma RefRoundTrip(r: Ref, skipHash: bool, ref: Option<Ref>, rest: Bytes, gen: Uint16)
    requires EncodableRef(r, skipHash)
    ensures DecodeNode(ref, EncodeRef(r, skipHash) + rest, gen) == Taken(RefNode(DropHash(r, skipHash)), rest)
  {
    var buf := EncodeRef(r, skipHash) + rest;
    assert buf[1..] == RefBody(r, skipHash) + rest;
    TagRoundTrip(KIND_REF, RefAttrs(r, skipHash));
    RefBodyRoundTrip(r, skipHash, rest);
  }

  lemma ValueRoundTrip(val: Bytes, meta: Bytes, rest: Bytes)
    requires |val| < TWO64 && |meta| < TWO64
    ensures DecodeValue(ValueBody(val, meta) + rest, ValueAttrs(meta)) == Taken(Value(val, meta), rest)
  {
    hide TakeString, EncodeString;
    if |meta| > 0 {
      assert ValueBody(val, meta) + rest == EncodeString(val) + (EncodeString(meta) + rest);
      StringRoundTrip(val, EncodeString(meta) + rest);
      StringRoundTrip(meta, rest);
      assert HasAttr(ValueAttrs(meta), HAS_META);
    } else {
      assert ValueBody(val, meta) + rest == EncodeString(val) + rest;
      StringRoundTrip(val, rest);
      assert meta == [];
    }
  }

  lemma KeyRoundTrip(k: Hex, rest: Bytes)
    requires ValidHex(k) && CompactLen(k) < 0x1_0000_0000
    ensures TakeString(EncodeKey(k) + rest) == Taken(HexToCompact(k), rest)
    ensures CompactToHex(HexToCompact(k)) == k
  {
    assert EncodeKey(k) == EncodeString(HexToCompact(k));
    StringRoundTrip(HexToCompact(k), rest);
    CompactRoundTrip(k);
  }

  /** Decoding an encoded node followed by any rest gives back that rest and the reloaded node. */
  lemma {:induction false} NodeRoundTrip(n: Node, skipHash: bool, ref: Option<Ref>, rest: Bytes, gen: Uint16)
    requires Encodable(n, skipHash)
    ensures DecodeNode(ref, Encode(n, skipHash) + rest, gen) == Taken(Reload(n, skipHash, ref, gen), rest)
    decreases n, 1
  {
    hide DecodeNode, Encode, Reload, EncodableChild;
    match n
    case Nil => AtomRoundTrip(n, skipHash, ref, rest, gen);
    case RefNode(r) => AtomRoundTrip(n, skipHash, ref, rest, gen);
    case Value(_, _) => AtomRoundTrip(n, skipHash, ref, rest, gen);
    case Full(cs, _) =>
      ChildrenRoundTrip(cs, skipHash, rest, gen);
      FullRoundTrip(n, skipHash, ref, rest, gen);
    case Short(_, _, _) => ShortRoundTrip(n, skipHash, ref, rest, gen);
  }

  lemma AtomRoundTrip(n: Node, skipHash: bool, ref: Option<Ref>, rest: Bytes, gen: Uint16)
    requires Encodable(n, skipHash) && (n.Nil? || n.RefNode? || n.Value?)
    ensures DecodeNode(ref, Encode(n, skipHash) + rest, gen) == Taken(Reload(n, skipHash, ref, gen), rest)
  {
    hide EncodeRef, ValueBody, DecodeValue, DecodeRef;
    var buf := Encode(n, skipHash) + rest;
    match n
    case Nil =>
      assert buf[1..] == rest;
    case RefNode(r) =>
      RefRoundTrip(r, skipHash, ref, rest, gen);
    case Value(val, meta) =>
      TagRoundTrip(KIND_VALUE, ValueAttrs(meta));
      assert buf[1..] == ValueBody(val, meta) + rest;
      ValueRoundTrip(val, meta, rest);
  }

  lemma FullRoundTrip(n: Node, skipHash: bool, ref: Option<Ref>, rest: Bytes, gen: Uint16)
    requires n.Full? && Encodable(n, skipHash)
    requires DecodeChildren(EncodeChildren(n.children, skipHash) + rest, |n.children|, gen) ==
             Taken(ReloadChildren(n.children, skipHash, gen), rest)
    ensures DecodeNode(ref, Encode(n, skipHash) + rest, gen) == Taken(Reload(n, skipHash, ref, gen), rest)
  {
    hide EncodeChildren, DecodeChildren, ReloadChildren, EncodableChild;
    var buf := Encode(n, skipHash) + rest;
    TagRoundTrip(KIND_FULL, if CountRefs(n.children) > 4 then HAS_MANY_REF else 0);
    assert buf[1..] == EncodeChildren(n.children, skipHash) + rest;
  }

  lemma {:induction false} ShortRoundTrip(n: Node, skipHash: bool, ref: Option<Ref>, rest: Bytes, gen: Uint16)
    requires n.Short? && Encodable(n, skipHash)
    ensures DecodeNode(ref, Encode(n, skipHash) + rest, gen) == Taken(Reload(n, skipHash, ref, gen), rest)
    decreases n, 0
  {
    hide DecodeNode, DecodeShort, DecodeValue, EncodeKey, ValueBody, EncodeChild, EncodableChild, ValidHex;
    var Short(k, c, _) := n;
    if HasTerm(k) {
      LeafRoundTrip(n, skipHash, ref, rest, gen);
    } else {
      var body := EncodeChild(c, skipHash) + rest;
      ChildRoundTrip(c, skipHash, rest, gen);
      DecodeShortOf(k, ReloadChild(c, skipHash, gen), body, ref, rest, 0, gen);
      DecodeTagged(0, EncodeKey(k) + body, ref, gen);
      assert Encode(n, skipHash) + rest == [Tag(KIND_SHORT, 0)] + (EncodeKey(k) + body);
    }
  }

  lemma LeafRoundTrip(n: Node, skipHash: bool, ref: Option<Ref>, rest: Bytes, gen: Uint16)
    requires n.Short? && Encodable(n, skipHash) && HasTerm(n.key)
    ensures DecodeNode(ref, Encode(n, skipHash) + rest, gen) == Taken(Reload(n, skipHash, ref, gen), rest)
  {
    hide DecodeNode, DecodeShort, DecodeValue, EncodeKey, ValueBody;
    var Short(k, c, _) := n;
    var body := ValueBody(c.val, c.meta) + rest;
    assert EncodableChild(c, skipHash) && Encodable(c, skipHash);
    assert ReloadChild(c, skipHash, gen) == c;
    ValueRoundTrip(c.val, c.meta, rest);
    DecodeShortOf(k, c, body, ref, rest, ValueAttrs(c.meta), gen);
    DecodeTagged(ValueAttrs(c.meta), EncodeKey(k) + body, ref, gen);
    assert Encode(n, skipHash) + rest == [Tag(KIND_SHORT, ValueAttrs(c.meta))] + (EncodeKey(k) + body);
  }

  lemma DecodeTagged(attrs: nat, body: Bytes, ref: Option<Ref>, gen: Uint16)
    requires attrs < 32
    ensures DecodeNode(ref, [Tag(KIND_SHORT, attrs)] + body, gen) == DecodeShort(ref, body, gen, attrs)
  {
    TagRoundTrip(KIND_SHORT, attrs);
    assert ([Tag(KIND_SHORT, attrs)] + body)[1..] == body;
  }

  lemma DecodeShortOf(k: Hex, c: Node, body: Bytes, ref: Option<Ref>, rest: Bytes, attrs: nat, gen: Uint16)
    requires ValidHex(k) && CompactLen(k) < 0x1_0000_0000
    requires (if HasTerm(k) then DecodeValue(body, attrs) else DecodeNode(None, body, gen)) == Taken(c, rest)
    ensures DecodeShort(ref, EncodeKey(k) + body, gen, attrs) == Taken(Short(k, c, TopFlags(ref, gen)), rest)
  {
    KeyRoundTrip(k, body);
  }

  lemma {:induction false} ChildRoundTrip(c: Node, skipHash: bool, rest: Bytes, gen: Uint16)
    requires EncodableChild(c, skipHash)
    ensures DecodeNode(None, EncodeChild(c, skipHash) + rest, gen) == Taken(ReloadChild(c, skipHash, gen), rest)
    decreases c, 2
  {
    if Clean(c) {
      RefRoundTrip(c.flags.ref, skipHash, None, rest, gen);
    } else {
      NodeRoundTrip(c, skipHash, None, rest, gen);
    }
  }

  lemma {:induction false} ChildrenRoundTrip(cs: seq<Node>, skipHash: bool, rest: Bytes, gen: Uint16)
    requires forall i :: 0 <= i < |cs| ==> EncodableChild(cs[i], skipHash)
    ensures DecodeChildren(EncodeChildren(cs, skipHash) + rest, |cs|, gen) ==
            Taken(ReloadChildren(cs, skipHash, gen), rest)
    decreases cs, 0
  {
    if cs == [] {
      assert EncodeChildren(cs, skipHash) + rest == rest;
    } else {
      var rest' := EncodeChildren(cs[1..], skipHash) + rest;
      assert EncodeChildren(cs, skipHash) + rest == EncodeChild(cs[0], skipHash) + rest';
      ChildRoundTrip(cs[0], skipHash, rest', gen);
      ChildrenRoundTrip(cs[1..], skipHash, rest, gen);
    }
  }

  /** The ref given to decodeNode only sets the flags of the outermost node. */
  lemma DecodeRefIndependent(r: Ref, buf: Bytes, gen: Uint16)
    ensures match DecodeNode(None, buf, gen)
            case Bad => DecodeNode(Some(r), buf, gen).Bad?
            case Taken(Full(cs, _), rest) => DecodeNode(Some(r), buf, gen) ==
              Taken(Full(cs, Flags(r, gen, false)), rest)
            case Taken(Short(k, c, _), rest) => DecodeNode(Some(r), buf, gen) ==
              Taken(Short(k, c, Flags(r, gen, false)), rest)
            case Taken(n, rest) => DecodeNode(Some(r), buf, gen) == Taken(n, rest)
  {
    if buf != [] && buf[0] % 8 == KIND_SHORT {
      var none, some := DecodeShort(None, buf[1..], gen, buf[0] / 8), DecodeShort(Some(r), buf[1..], gen, buf[0] / 8);
      assert none.Bad? <==> some.Bad?;
      assert none.Taken? ==> none.value.key == some.value.key && none.value.child == some.value.child;
    }
  }

  /**
   A ref survives a hashed encoding exactly when it carries a 32-byte hash: one read from a blob that
   was written without hashes has none, and writing it with hashes on swallows the bytes behind it.
   */
  lemma RefSurvivesIffHashed(r: Ref, gen: Uint16)
    ensures |r.hash| == 32 <==>
            forall rest :: DecodeNode(None, EncodeRef(r, false) + rest, gen) == Taken(RefNode(r), rest)
  {
    if |r.hash| == 32 {
      forall rest ensures DecodeNode(None, EncodeRef(r, false) + rest, gen) == Taken(RefNode(r), rest) {
        RefRoundTrip(r, false, None, rest, gen);
      }
    } else {
      var rest: Bytes := [];
      assert DecodeNode(None, EncodeRef(r, false) + rest, gen) != Taken(RefNode(r), rest) by {
        HashIsAlways32(EncodeRef(r, false) + rest, gen);
        TagRoundTrip(KIND_REF, RefAttrs(r, false));
        RefAttrsReadBack(r, false);
      }
    }
  }

  lemma HashIsAlways32(buf: Bytes, gen: Uint16)
    requires buf != [] && buf[0] % 8 == KIND_REF && HasAttr(buf[0] / 8, HAS_HASH)
    ensures var d := DecodeNode(None, buf, gen);
            d.Bad? || (d.value.RefNode? && |d.value.ref.hash| == 32)
  {
  }
}
