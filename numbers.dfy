/** Integer helpers shared by the broadcast loop and the paging arithmetic. */
module Numbers {

  /** Python's `min` on two integers. */
  function Min(a: int, b: int): int {
    if a <= b then a else b
  }
}
