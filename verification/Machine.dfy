/** Machine integers, small types and arithmetic shared by the modules. */
module Machine {
  /** Words of 32 bits wrap around here. */
  const WORD := 0x1_0000_0000

  newtype uint32 = x: int | 0 <= x < 0x1_0000_0000

  datatype Option<+T> = None | Some(value: T)

  lemma NonNegative(a: nat, b: nat)
    ensures a * b >= 0
  {
  }
}
