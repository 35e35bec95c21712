/** What several modules share. */
module Common {

  datatype Option<T> = None | Some(value: T)

  /** One more than the greatest unsigned 32-bit number. */
  const TWO32: nat := 0x1_0000_0000

  function Min(a: nat, b: nat): nat { if a < b then a else b }

  function Max(a: nat, b: nat): nat { if a > b then a else b }
}
