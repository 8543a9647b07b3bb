/** Fixed-width integers of the C++ code, and the small datatypes every other module uses. */
module Machine {

  datatype Option<+T> = None | Some(value: T)

  const TWO_31: int := 0x8000_0000
  const TWO_32: int := 0x1_0000_0000
  const TWO_64: int := 0x1_0000_0000_0000_0000

  /** Conversion to `int`: the only 32-bit number that differs from `x` by whole periods.
      An overflowing `int` product is read the same way. */
  function ToInt32(x: int): (r: int)
    ensures -TWO_31 <= r < TWO_31
    ensures -TWO_31 <= x < TWO_31 ==> r == x
    ensures (x - r) % TWO_32 == 0
  {
    var m := x % TWO_32;
    if m < TWO_31 then m else m - TWO_32
  }

  /** Conversion to `int16_t`. */
  function ToInt16(x: int): (r: int)
    ensures -0x8000 <= r < 0x8000
    ensures -0x8000 <= x < 0x8000 ==> r == x
    ensures (x - r) % 0x1_0000 == 0
  {
    var m := x % 0x1_0000;
    if m < 0x8000 then m else m - 0x1_0000
  }

  /** Storing into a signed bit field of seven bits. */
  function ToInt7(x: int): (r: int)
    ensures -64 <= r < 64
    ensures -64 <= x < 64 ==> r == x
    ensures (x - r) % 128 == 0
  {
    var m := x % 128;
    if m < 64 then m else m - 128
  }
}
