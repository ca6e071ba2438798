/** Execution weight: a u64 counter that the migration accrues with saturating arithmetic. */
module Weights {

  const U64_MAX: int := 0xffff_ffff_ffff_ffff

  type Weight = w: int | 0 <= w <= U64_MAX

  /** The runtime's cost of one storage read and one storage write. */
  datatype RuntimeDbWeight = RuntimeDbWeight(read: Weight, write: Weight)

  /** `saturating_add` on u64: never smaller than either operand, never wraps. */
  function SaturatingAdd(a: Weight, b: Weight): (r: Weight)
    ensures a <= r && b <= r
    ensures r == a + b || r == U64_MAX
    ensures a + b <= U64_MAX ==> r == a + b
    ensures a + b > U64_MAX ==> r == U64_MAX
  {
    if a + b <= U64_MAX then a + b else U64_MAX
  }

  function SaturatingMul(a: Weight, n: nat): Weight {
    if a * n <= U64_MAX then a * n else U64_MAX
  }

  function Reads(db: RuntimeDbWeight, n: nat): Weight {
    SaturatingMul(db.read, n)
  }

  function Writes(db: RuntimeDbWeight, n: nat): Weight {
    SaturatingMul(db.write, n)
  }

  function ReadsWrites(db: RuntimeDbWeight, r: nat, w: nat): Weight {
    SaturatingAdd(Reads(db, r), Writes(db, w))
  }
}
