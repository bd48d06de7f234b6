/** The gas limit of a block against that of its parent (block/gas_limit.go, packer/packer.go:172-177). */
module GasLimit {
  import opened ByteStrings

  const MIN_GAS_LIMIT := 1_000_000
  const MAX_UINT64 := TWO64 - 1

  type Uint64 = x: int | 0 <= x < TWO64

  function Distance(a: Uint64, b: Uint64): nat { if a > b then (a as int) - b else (b as int) - a }

  function MaxDiff(parent: Uint64): Uint64 { parent / 1024 }

  predicate IsValid(limit: Uint64, parent: Uint64) {
    limit >= MIN_GAS_LIMIT && Distance(limit, parent) <= MaxDiff(parent)
  }

  /** At least a million, and off the parent's limit by no more than a 1024th of it. */
  lemma IsValidIff(limit: Uint64, parent: Uint64)
    ensures IsValid(limit, parent) <==>
            && limit >= 1_000_000 && 1024 * (limit as int - parent as int) <= parent
            && 1024 * (parent as int - limit as int) <= parent
  {
  }

  function Min(a: nat, b: nat): nat { if a > b then b else a }

  /** A limit that differs from the parent's by delta, as far as that is allowed. */
  function Adjust(parent: Uint64, delta: int): Uint64 {
    if delta > 0 then
      var diff := Min(delta, MaxDiff(parent));
      if MAX_UINT64 - diff < parent then MAX_UINT64 else (parent as int) + diff
    else
      var diff := Min(-delta, MaxDiff(parent));
      if MIN_GAS_LIMIT + diff > parent then MIN_GAS_LIMIT else (parent as int) - diff
  }

  function Qualify(target: Uint64, parent: Uint64): Uint64 {
    var diff := Min(Distance(target, parent), MaxDiff(parent));
    if target > parent then Adjust(parent, diff) else Adjust(parent, 0 - diff)
  }

  /** The packer's choice; a target of zero asks for no change. */
  function PackerLimit(target: Uint64, parent: Uint64): Uint64 {
    if target != 0 then Qualify(target, parent) else parent
  }

  /** The qualified limit is valid, and no valid limit is closer to the target. */
  lemma QualifyIsClosest(target: Uint64, parent: Uint64, other: Uint64)
    requires parent >= MIN_GAS_LIMIT && IsValid(other, parent)
    ensures IsValid(Qualify(target, parent), parent)
    ensures Distance(Qualify(target, parent), target) <= Distance(other, target)
  {
    assert MaxDiff(parent) <= parent;
  }

  /** Without a target the limit stays; with one it is the valid limit closest to it. */
  lemma PackerLimitIs(target: Uint64, parent: Uint64, other: Uint64)
    requires parent >= MIN_GAS_LIMIT
    ensures target == 0 ==> PackerLimit(target, parent) == parent
    ensures target != 0 && IsValid(other, parent) ==>
              Distance(PackerLimit(target, parent), target) <= Distance(other, target)
  {
    if IsValid(other, parent) { QualifyIsClosest(target, parent, other); }
  }

  /** The packer's limit is valid for every target exactly when the parent's limit reaches the minimum. */
  lemma PackerLimitValidIff(parent: Uint64)
    ensures (forall target: Uint64 :: IsValid(PackerLimit(target, parent), parent)) <==> parent >= MIN_GAS_LIMIT
  {
    if parent >= MIN_GAS_LIMIT {
      forall target: Uint64 ensures IsValid(PackerLimit(target, parent), parent) {
        QualifyIsClosest(target, parent, parent);
      }
    } else {
      assert !IsValid(PackerLimit(0, parent), parent);
    }
  }
}
