/**
 Jump destinations (vm/analysis.go, vm/contract.go): a bit vector that marks the data of PUSH
 instructions, against the scan that section 9.4.3 of the Yellow Paper defines.
 */
module CodeBitmap {
  import opened ByteStrings

  const JUMPDEST := 0x5b
  const PUSH1 := 0x60
  const PUSH32 := 0x7f

  type Code = Bytes
  type Bits = seq<bv8>

  // ---- the scan ----

  function PushSize(op: nat): nat { if PUSH1 <= op <= PUSH32 then op - PUSH1 + 1 else 0 }

  /** The positions of instructions from a given instruction on. */
  ghost function Starts(code: Code, pc: nat): set<nat>
    decreases |code| - pc
  {
    if pc >= |code| then {} else {pc} + Starts(code, pc + 1 + PushSize(code[pc]))
  }

  /** The valid jump destinations from a given instruction on. */
  ghost function JumpDests(code: Code, pc: nat): set<nat>
    decreases |code| - pc
  {
    if pc >= |code| then {}
    else (if code[pc] == JUMPDEST then {pc} else {}) + JumpDests(code, pc + 1 + PushSize(code[pc]))
  }

  lemma {:induction false} StartsRange(code: Code, pc: nat)
    ensures forall p :: p in Starts(code, pc) ==> pc <= p < |code|
    decreases |code| - pc
  {
    if pc < |code| { StartsRange(code, pc + 1 + PushSize(code[pc])); }
  }

  lemma {:induction false} DestsAreStarts(code: Code, pc: nat)
    ensures forall p :: p in JumpDests(code, pc) <==> p in Starts(code, pc) && p < |code| && code[p] == JUMPDEST
    decreases |code| - pc
  {
    if pc < |code| { DestsAreStarts(code, pc + 1 + PushSize(code[pc])); }
  }

  /**
   Instructions follow one another: one starts at 0, the next after an instruction and its data, and none within
   the data. The opcodes 0x60 to 0x7f have 1 to 32 bytes of data, others none.
   */
  lemma {:induction false} StartsFollow(code: Code, pc: nat, p: nat)
    requires p in Starts(code, pc)
    ensures pc in Starts(code, pc) && pc <= p < |code|
    ensures var next := p + 1 + if 0x60 <= code[p] <= 0x7f then code[p] as int - 0x5f else 0;
            && (next < |code| ==> next in Starts(code, pc))
            && forall q: nat :: p < q < next ==> q !in Starts(code, pc)
    decreases |code| - pc
  {
    StartsRange(code, pc);
    var after := pc + 1 + PushSize(code[pc]);
    StartsRange(code, after);
    if p != pc { StartsFollow(code, after, p); }
    if after < |code| { assert after in Starts(code, after); }
  }

  /** The destinations of a code are the bytes 0x5b where an instruction starts. */
  lemma DestIs(code: Code, p: nat)
    ensures p in JumpDests(code, 0) <==> p in Starts(code, 0) && p < |code| && code[p] == 0x5b
  {
    DestsAreStarts(code, 0);
  }

  // ---- bits ----

  /** b >> k and x << k, the shift spelled out. */
  function Shr(b: bv8, k: nat): bv8
    requires k < 8
  {
    match k
    case 0 => b case 1 => b >> 1 case 2 => b >> 2 case 3 => b >> 3
    case 4 => b >> 4 case 5 => b >> 5 case 6 => b >> 6 case _ => b >> 7
  }

  function Shl8(b: bv8, k: nat): bv8
    requires k < 8
  {
    match k
    case 0 => b case 1 => b << 1 case 2 => b << 2 case 3 => b << 3
    case 4 => b << 4 case 5 => b << 5 case 6 => b << 6 case _ => b << 7
  }

  function Shl16(x: bv16, k: nat): bv16
    requires k < 8
  {
    match k
    case 0 => x case 1 => x << 1 case 2 => x << 2 case 3 => x << 3
    case 4 => x << 4 case 5 => x << 5 case 6 => x << 6 case _ => x << 7
  }

  function Not(b: bv8): bv8 { !b }

  function Or(a: bv8, b: bv8): bv8 { a | b }

  function Low(x: bv16): bv8 { (x & 0xff) as bv8 }

  function High(x: bv16): bv8 { (x >> 8) as bv8 }

  predicate Bit(b: bv8, k: nat)
    requires k < 8
  {
    Shr(b, k) & 1 == 1
  }

  lemma OrBits(a: bv8, b: bv8, k: nat)
    requires k < 8
    ensures Bit(Or(a, b), k) <==> Bit(a, k) || Bit(b, k)
  {
    ShrOr(a, b, k);
    hide Shr;
    OrLowest(Shr(a, k), Shr(b, k));
  }

  lemma ShrOr(a: bv8, b: bv8, k: nat)
    requires k < 8
    ensures Shr(a | b, k) == Shr(a, k) | Shr(b, k)
  {
    match k
    case 0 =>
    case 1 => assert (a | b) >> 1 == (a >> 1) | (b >> 1);
    case 2 => assert (a | b) >> 2 == (a >> 2) | (b >> 2);
    case 3 => assert (a | b) >> 3 == (a >> 3) | (b >> 3);
    case 4 => assert (a | b) >> 4 == (a >> 4) | (b >> 4);
    case 5 => assert (a | b) >> 5 == (a >> 5) | (b >> 5);
    case 6 => assert (a | b) >> 6 == (a >> 6) | (b >> 6);
    case _ => assert (a | b) >> 7 == (a >> 7) | (b >> 7);
  }

  lemma OrLowest(x: bv8, y: bv8)
    ensures (x | y) & 1 == 1 <==> x & 1 == 1 || y & 1 == 1
  {
    assert (x | y) & 1 == (x & 1) | (y & 1);
  }

  /** 0xff << s has the bits from s on, its complement the others. */
  lemma OnesFrom(s: nat, k: nat)
    requires s < 8 && k < 8
    ensures Bit(Shl8(0xff, s), k) <==> s <= k
    ensures Bit(Not(Shl8(0xff, s)), k) <==> k < s
  {
  }

  lemma OneAt(s: nat, k: nat)
    requires s < 8 && k < 8
    ensures Bit(Shl8(1, s), k) <==> k == s
  {
  }

  /** The flags of two to seven bits. */
  function Mask(n: nat): bv16
    requires 2 <= n <= 7
  {
    match n case 2 => 3 case 3 => 7 case 4 => 15 case 5 => 31 case 6 => 63 case _ => 127
  }

  lemma MaskBits(n: nat, s: nat, k: nat)
    requires 2 <= n <= 7 && s < 8 && k < 8
    ensures Bit(Low(Shl16(Mask(n), s)), k) <==> s <= k < s + n
    ensures Bit(High(Shl16(Mask(n), s)), k) <==> 8 + k < s + n
  {
  }

  // ---- runs of ones ----

  /** What a run of n ones from pos on adds; q and k are byte and bit. */
  ghost predicate Ones(old_: Bits, new_: Bits, pos: nat, n: nat) {
    |new_| == |old_| && forall q, k {:trigger Bit(new_[q], k)} :: 0 <= q < |new_| && 0 <= k < 8 ==>
      (Bit(new_[q], k) <==> Bit(old_[q], k) || pos <= 8 * q + k < pos + n)
  }

  ghost predicate ClearFrom(bits: Bits, pos: nat) {
    forall q, k {:trigger Bit(bits[q], k)} :: 0 <= q < |bits| && 0 <= k < 8 && 8 * q + k >= pos ==> !Bit(bits[q], k)
  }

  lemma OnesMore(a: Bits, b: Bits, c: Bits, pos: nat, m: nat, n: nat)
    requires Ones(a, b, pos, m) && Ones(b, c, pos + m, n)
    ensures Ones(a, c, pos, m + n)
  {
    hide Bit;
  }

  lemma StillClear(a: Bits, b: Bits, pos: nat, n: nat)
    requires Ones(a, b, pos, n) && ClearFrom(a, pos)
    ensures ClearFrom(b, pos + n)
  {
    hide Bit;
  }

  /** A byte that holds its part of the run. */
  ghost predicate ByteOk(o: bv8, b: bv8, q: int, pos: nat, n: nat) {
    forall k :: 0 <= k < 8 ==> (Bit(b, k) <==> Bit(o, k) || pos <= 8 * q + k < pos + n)
  }

  lemma OnesByBytes(old_: Bits, new_: Bits, pos: nat, n: nat)
    requires |new_| == |old_| && forall q :: 0 <= q < |new_| ==> ByteOk(old_[q], new_[q], q, pos, n)
    ensures Ones(old_, new_, pos, n)
  {
    hide Bit;
    forall q, k | 0 <= q < |new_| && 0 <= k < 8
      ensures Bit(new_[q], k) <==> Bit(old_[q], k) || pos <= 8 * q + k < pos + n
    {
      assert ByteOk(old_[q], new_[q], q, pos, n);
    }
  }

  /** A byte outside the run may stay. */
  lemma Outside(b: bv8, q: int, pos: nat, n: nat)
    requires 8 * q + 8 <= pos || pos + n <= 8 * q
    ensures ByteOk(b, b, q, pos, n)
  {
    hide Bit;
  }

  method Set1(bits: array<bv8>, pos: nat)
    requires pos / 8 < bits.Length
    modifies bits
    ensures Ones(old(bits[..]), bits[..], pos, 1)
  {
    var j, s := pos / 8, pos % 8;
    ghost var before := bits[..];
    bits[j] := Or(bits[j], Shl8(1, s));
    forall k | 0 <= k < 8 ensures Bit(bits[j], k) <==> Bit(before[j], k) || pos <= 8 * j + k < pos + 1 {
      OrBits(before[j], Shl8(1, s), k);
      OneAt(s, k);
    }
    hide Bit, Shl8, Shr;
    forall q | 0 <= q < bits.Length ensures ByteOk(before[q], bits[..][q], q, pos, 1) {
      if q != j { Outside(before[q], q, pos, 1); }
    }
    OnesByBytes(before, bits[..], pos, 1);
  }

  lemma MaskRun(n: nat, s: nat)
    requires 2 <= n <= 7 && s < 8
    ensures forall k :: 0 <= k < 8 ==> (Bit(Low(Shl16(Mask(n), s)), k) <==> s <= k < s + n)
    ensures forall k :: 0 <= k < 8 ==> (Bit(High(Shl16(Mask(n), s)), k) <==> 8 + k < s + n)
  {
    forall k | 0 <= k < 8
      ensures Bit(Low(Shl16(Mask(n), s)), k) <==> s <= k < s + n
      ensures Bit(High(Shl16(Mask(n), s)), k) <==> 8 + k < s + n
    {
      MaskBits(n, s, k);
    }
  }

  lemma OnesRun(s: nat)
    requires s < 8
    ensures forall k :: 0 <= k < 8 ==> (Bit(Shl8(0xff, s), k) <==> s <= k)
    ensures forall k :: 0 <= k < 8 ==> (Bit(Not(Shl8(0xff, s)), k) <==> k < s)
    ensures forall k :: 0 <= k < 8 ==> Bit(0xff, k)
  {
    forall k | 0 <= k < 8
      ensures (Bit(Shl8(0xff, s), k) <==> s <= k) && (Bit(Not(Shl8(0xff, s)), k) <==> k < s) && Bit(0xff, k)
    {
      OnesFrom(s, k);
    }
  }

  /** The first byte of a run that starts at bit s, and a byte further on. */
  lemma FirstByte(o: bv8, x: bv8, j: nat, s: nat, n: nat)
    requires s < 8 && forall k :: 0 <= k < 8 ==> (Bit(x, k) <==> s <= k < s + n)
    ensures ByteOk(o, Or(o, x), j, 8 * j + s, n)
  {
    forall k | 0 <= k < 8 ensures Bit(Or(o, x), k) <==> Bit(o, k) || s <= k < s + n { OrBits(o, x, k); }
    hide Bit;
  }

  lemma LaterByte(bits: Bits, x: bv8, j: nat, s: nat, n: nat, d: nat)
    requires s < 8 && 1 <= d && j + d < |bits| && ClearFrom(bits, 8 * j + s)
    requires forall k :: 0 <= k < 8 ==> (Bit(x, k) <==> 8 * d + k < s + n)
    ensures ByteOk(bits[j + d], x, j + d, 8 * j + s, n)
  {
    hide Bit;
  }

  method SetN(bits: array<bv8>, flag: bv16, pos: nat, ghost n: nat)
    requires 2 <= n <= 7 && flag == Mask(n) && (pos + n - 1) / 8 < bits.Length && ClearFrom(bits[..], pos)
    modifies bits
    ensures Ones(old(bits[..]), bits[..], pos, n)
  {
    hide Bit, Shl8, Shl16, Or, Not, Low, High, Mask, ClearFrom, Ones;
    var j, s := pos / 8, pos % 8;
    ghost var before := bits[..];
    var a := Shl16(flag, s);
    bits[j] := Or(bits[j], Low(a));
    var b := High(a);
    HighIsSpill(n, s);
    if b != 0 { bits[j + 1] := b; }
    assert bits[..] ==
      if s + n <= 8 then before[j := Or(before[j], Low(a))] else before[j := Or(before[j], Low(a))][j + 1 := b];
    RunOfN(before, j, s, n);
  }

  lemma HighIsSpill(n: nat, s: nat)
    requires 2 <= n <= 7 && s < 8
    ensures High(Shl16(Mask(n), s)) == 0 <==> s + n <= 8
  {
  }

  lemma RunOfN(bits: Bits, j: nat, s: nat, n: nat)
    requires s < 8 && 2 <= n <= 7 && j + (s + n - 1) / 8 < |bits| && ClearFrom(bits, 8 * j + s)
    ensures var a := Shl16(Mask(n), s);
            var first := bits[j := Or(bits[j], Low(a))];
            Ones(bits, if s + n <= 8 then first else first[j + 1 := High(a)], 8 * j + s, n)
  {
    hide Bit, Low, High, Or, Mask, Shl16, ByteOk, ClearFrom, Ones;
    var a := Shl16(Mask(n), s);
    var first := bits[j := Or(bits[j], Low(a))];
    var after := if s + n <= 8 then first else first[j + 1 := High(a)];
    MaskRun(n, s);
    FirstByte(bits[j], Low(a), j, s, n);
    if s + n > 8 { LaterByte(bits, High(a), j, s, n, 1); }
    forall q | 0 <= q < |bits| ensures ByteOk(bits[q], after[q], q, 8 * j + s, n) {
      if q < j || q > j + (s + n - 1) / 8 { Outside(bits[q], q, 8 * j + s, n); }
    }
    OnesByBytes(bits, after, 8 * j + s, n);
  }

  method Set8(bits: array<bv8>, pos: nat)
    requires pos / 8 + 1 < bits.Length && ClearFrom(bits[..], pos)
    modifies bits
    ensures Ones(old(bits[..]), bits[..], pos, 8)
  {
    hide Bit, Shl8, Shl16, Or, Not, Low, High, Mask, ClearFrom, Ones;
    var j, s := pos / 8, pos % 8;
    ghost var before := bits[..];
    var a := Shl8(0xff, s);
    bits[j] := Or(bits[j], a);
    bits[j + 1] := Not(a);
    assert bits[..] == before[j := Or(before[j], a)][j + 1 := Not(a)];
    RunOf8(before, j, s);
  }

  lemma RunOf8(bits: Bits, j: nat, s: nat)
    requires s < 8 && j + 1 < |bits| && ClearFrom(bits, 8 * j + s)
    ensures var a := Shl8(0xff, s); Ones(bits, bits[j := Or(bits[j], a)][j + 1 := Not(a)], 8 * j + s, 8)
  {
    hide Bit, Shl8, Or, Not, ByteOk, ClearFrom, Ones;
    var a := Shl8(0xff, s);
    var after := bits[j := Or(bits[j], a)][j + 1 := Not(a)];
    OnesRun(s);
    FirstByte(bits[j], a, j, s, 8);
    LaterByte(bits, Not(a), j, s, 8, 1);
    forall q | 0 <= q < |bits| ensures ByteOk(bits[q], after[q], q, 8 * j + s, 8) {
      if q < j || q > j + 1 { Outside(bits[q], q, 8 * j + s, 8); }
    }
    OnesByBytes(bits, after, 8 * j + s, 8);
  }

  method Set16(bits: array<bv8>, pos: nat)
    requires pos / 8 + 2 < bits.Length && ClearFrom(bits[..], pos)
    modifies bits
    ensures Ones(old(bits[..]), bits[..], pos, 16)
  {
    hide Bit, Shl8, Shl16, Or, Not, Low, High, Mask, ClearFrom, Ones;
    var j, s := pos / 8, pos % 8;
    ghost var before := bits[..];
    var a := Shl8(0xff, s);
    bits[j] := Or(bits[j], a);
    bits[j + 1] := 0xff;
    bits[j + 2] := Not(a);
    assert bits[..] == before[j := Or(before[j], a)][j + 1 := 0xff][j + 2 := Not(a)];
    RunOf16(before, j, s);
  }

  lemma RunOf16(bits: Bits, j: nat, s: nat)
    requires s < 8 && j + 2 < |bits| && ClearFrom(bits, 8 * j + s)
    ensures var a := Shl8(0xff, s); Ones(bits, bits[j := Or(bits[j], a)][j + 1 := 0xff][j + 2 := Not(a)], 8 * j + s, 16)
  {
    hide Bit, Shl8, Or, Not, ByteOk, ClearFrom, Ones;
    var a := Shl8(0xff, s);
    var after := bits[j := Or(bits[j], a)][j + 1 := 0xff][j + 2 := Not(a)];
    OnesRun(s);
    FirstByte(bits[j], a, j, s, 16);
    LaterByte(bits, 0xff, j, s, 16, 1);
    LaterByte(bits, Not(a), j, s, 16, 2);
    forall q | 0 <= q < |bits| ensures ByteOk(bits[q], after[q], q, 8 * j + s, 16) {
      if q < j || q > j + 2 { Outside(bits[q], q, 8 * j + s, 16); }
    }
    OnesByBytes(bits, after, 8 * j + s, 16);
  }

  // ---- the bitmap of a code ----

  /** codeSegment: whether a position holds an instruction. */
  predicate CodeSegment(bits: Bits, pos: nat)
    requires pos / 8 < |bits|
  {
    Shr(bits[pos / 8], pos % 8) & 1 == 0
  }

  /** The bits up to an instruction at pc are settled, no later bit is set. */
  ghost predicate Marked(code: Code, bits: Bits, pc: nat) {
    && (forall q, k {:trigger Bit(bits[q], k)} :: 0 <= q < |bits| && 0 <= k < 8 && 8 * q + k < pc ==>
          (Bit(bits[q], k) <==> 8 * q + k !in Starts(code, 0)))
    && ClearFrom(bits, pc)
    && (forall p: nat :: p >= pc ==> (p in Starts(code, 0) <==> p in Starts(code, pc)))
  }

  lemma MarkStep(code: Code, a: Bits, b: Bits, pc: nat)
    requires pc < |code| && Marked(code, a, pc) && Ones(a, b, pc + 1, PushSize(code[pc]))
    ensures Marked(code, b, pc + 1 + PushSize(code[pc]))
  {
    hide Bit;
    var n := PushSize(code[pc]);
    StartsRange(code, pc + 1 + n);
    assert Starts(code, pc) == {pc} + Starts(code, pc + 1 + n);
  }

  /** The data of one PUSH, in runs of sixteen, eight and fewer. */
  method MarkData(bits: array<bv8>, start: nat, n: nat) returns (pc: nat)
    requires 1 <= n <= 32 && start / 8 + 4 < bits.Length && ClearFrom(bits[..], start)
    modifies bits
    ensures pc == start + n && Ones(old(bits[..]), bits[..], start, n)
  {
    hide Bit, Ones, ClearFrom, Mask;
    pc := start;
    var numbits := n;
    NoOnes(bits[..], start);
    while numbits >= 16
      invariant numbits + pc - start == n && pc <= start + 32 && (pc - start) % 16 == 0
      invariant ClearFrom(bits[..], pc) && Ones(old(bits[..]), bits[..], start, pc - start)
    {
      ghost var before := bits[..];
      Set16(bits, pc);
      StillClear(before, bits[..], pc, 16);
      OnesMore(old(bits[..]), before, bits[..], start, pc - start, 16);
      pc, numbits := pc + 16, numbits - 16;
    }
    while numbits >= 8
      invariant numbits + pc - start == n && numbits < 16
      invariant ClearFrom(bits[..], pc) && Ones(old(bits[..]), bits[..], start, pc - start)
    {
      ghost var before := bits[..];
      Set8(bits, pc);
      StillClear(before, bits[..], pc, 8);
      OnesMore(old(bits[..]), before, bits[..], start, pc - start, 8);
      pc, numbits := pc + 8, numbits - 8;
    }
    if numbits > 0 {
      ghost var before := bits[..];
      if numbits == 1 { Set1(bits, pc); } else { SetN(bits, Mask(numbits), pc, numbits); }
      OnesMore(old(bits[..]), before, bits[..], start, pc - start, numbits);
      pc := pc + numbits;
    }
  }

  lemma NoOnes(bits: Bits, pos: nat)
    ensures Ones(bits, bits, pos, 0)
  {
    hide Bit;
  }

  /** The bitmap tells instructions from data; every write stays inside it. */
  method Analyze(code: Code) returns (bits: array<bv8>)
    ensures fresh(bits) && Analysis(code, bits[..])
  {
    bits := new bv8[|code| / 8 + 1 + 4](_ => 0);
    var pc := 0;
    assert Marked(code, bits[..], 0) by { AllClear(code, bits[..]); }
    hide Bit, Marked, ClearFrom, Ones, Analysis, Starts;
    while pc < |code|
      invariant fresh(bits) && bits.Length == |code| / 8 + 5 && Marked(code, bits[..], pc)
      decreases |code| - pc
    {
      var op := code[pc];
      ghost var before, at := bits[..], pc;
      pc := pc + 1;
      NoOnes(before, pc);
      if PUSH1 <= op <= PUSH32 {
        assert ClearFrom(bits[..], pc) by { MarkedClear(code, before, at); }
        pc := MarkData(bits, pc, op - PUSH1 + 1);
      }
      MarkStep(code, before, bits[..], at);
    }
    MarkedIsAnalysis(code, bits[..], pc);
  }

  lemma MarkedClear(code: Code, bits: Bits, pc: nat)
    requires Marked(code, bits, pc)
    ensures ClearFrom(bits, pc + 1)
  {
    hide Bit;
  }

  lemma AllClear(code: Code, bits: Bits)
    requires forall q :: 0 <= q < |bits| ==> bits[q] == 0
    ensures Marked(code, bits, 0)
  {
    forall k | 0 <= k < 8 ensures !Bit(0, k) {}
  }

  /** What a bitmap must say of a code. */
  ghost predicate Analysis(code: Code, bits: Bits) {
    |bits| == |code| / 8 + 5 && forall p: nat :: p < |code| ==> (CodeSegment(bits, p) <==> p in Starts(code, 0))
  }

  lemma MarkedIsAnalysis(code: Code, bits: Bits, pc: nat)
    requires |bits| == |code| / 8 + 5 && pc >= |code| && Marked(code, bits, pc)
    ensures Analysis(code, bits)
  {
    forall p: nat | p < |code| ensures CodeSegment(bits, p) <==> p in Starts(code, 0) {
      assert Bit(bits[p / 8], p % 8) <==> p !in Starts(code, 0);
      OneOrZero(Shr(bits[p / 8], p % 8));
    }
  }

  lemma OneOrZero(x: bv8)
    ensures x & 1 == 1 || x & 1 == 0
  {
  }

  // ---- contracts ----

  type Hash = Bytes

  /** Cached bitmaps belong to the codes with these hashes. */
  ghost predicate CacheOk(h: Code -> Hash, cache: map<Hash, Bits>, known: set<Code>) {
    && (forall x :: x in cache ==> exists c :: c in known && h(c) == x && Analysis(c, cache[x]))
    && (forall c, d :: c in known && d in known && h(c) == h(d) ==> c == d)
  }

  /** The cache shared by all contracts. */
  class BitmapCache {
    const h: Code -> Hash
    ghost const known: set<Code>
    var cache: map<Hash, Bits>

    ghost predicate Valid()
      reads this
    {
      CacheOk(h, cache, known)
    }

    /** `known` is any set of codes without a hash collision. */
    constructor (h: Code -> Hash, ghost known: set<Code>)
      requires forall c, d :: c in known && d in known && h(c) == h(d) ==> c == d
      ensures Valid() && this.h == h && this.known == known
    {
      this.h, this.known, this.cache := h, known, map[];
    }

    method Get(codehash: Hash, code: Code) returns (bitmap: Bits)
      requires Valid() && code in known && codehash == h(code)
      modifies this
      ensures Valid() && Analysis(code, bitmap)
    {
      hide Analysis;
      if codehash in cache {
        bitmap := cache[codehash];
      } else {
        var bits := Analyze(code);
        bitmap := bits[..];
        cache := cache[codehash := bitmap];
      }
    }
  }

  class Contract {
    const code: Code
    const codeHash: Hash          // empty if there is none
    const shared: BitmapCache
    var analysis: Option<Bits>

    ghost predicate Valid()
      reads this, shared
    {
      && shared.Valid() && (analysis.Some? ==> Analysis(code, analysis.value))
      && (codeHash != [] ==> code in shared.known && codeHash == shared.h(code))
    }

    constructor (code: Code, codeHash: Hash, shared: BitmapCache)
      requires shared.Valid() && (codeHash != [] ==> code in shared.known && codeHash == shared.h(code))
      ensures Valid() && this.code == code && this.shared == shared
    {
      this.code, this.codeHash, this.shared, this.analysis := code, codeHash, shared, None;
    }

    /** Whether a position in the code holds an instruction, from whatever bitmap is at hand. */
    method IsCode(udest: nat) returns (r: bool)
      requires Valid() && udest < |code|
      modifies this, shared
      ensures Valid() && (r <==> udest in Starts(code, 0))
    {
      if analysis.None? {
        var bitmap;
        if codeHash != [] {
          bitmap := shared.Get(codeHash, code);
        } else {
          var bits := Analyze(code);
          bitmap := bits[..];
        }
        analysis := Some(bitmap);
      }
      r := CodeSegment(analysis.value, udest);
    }

    /** validJumpdest: exactly the destinations of the scan are valid; `dest` is a 256-bit word. */
    method ValidJumpdest(dest: nat) returns (r: bool)
      requires Valid() && |code| < TWO64
      modifies this, shared
      ensures Valid() && (r <==> dest in JumpDests(code, 0))
    {
      DestsAreStarts(code, 0);
      if dest >= TWO64 || dest >= |code| { return false; }
      if code[dest] != JUMPDEST { return false; }
      r := IsCode(dest);
    }
  }
}
