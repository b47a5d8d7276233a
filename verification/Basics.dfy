/** What several components share: optional values and the width of a machine word. */
module Basics {
  datatype Option<+T> = None | Some(value: T)

  const TWO32: nat := 0x1_0000_0000
  const TWO64: nat := 0x1_0000_0000_0000_0000
}
