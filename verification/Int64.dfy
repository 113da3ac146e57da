/** Signed 64-bit integers: every operation below must stay in range to verify. */
module Int64 {
  newtype Int64 = x: int | -0x8000_0000_0000_0000 <= x <= 0x7fff_ffff_ffff_ffff

  const MAX: Int64 := 0x7fff_ffff_ffff_ffff
  const MIN: Int64 := -0x8000_0000_0000_0000

  /** Addition that sticks at the ends of the range. */
  function AddSaturated(value: Int64, delta: Int64): (r: Int64)
    ensures var exact := value as int + delta as int;
            r as int == if exact > MAX as int then MAX as int else if exact < MIN as int then MIN as int else exact
  {
    if delta > 0 && value > MAX - delta then MAX
    else if delta < 0 && value < MIN - delta then MIN
    else value + delta
  }
}
