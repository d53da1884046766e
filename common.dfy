/** What kernel and library routines hand back: a value or a panic, and a value that may be absent. */
module Outcomes {

  datatype Outcome<+T> = Ret(value: T) | Panic

  /** A value that may be absent (a NULL pointer, a failed lookup). */
  datatype Option<+T> = None | Some(value: T)
}

/** The C bit tests and narrowing conversions the kernel code relies on. */
module Bits {

  /** The C test `w & m` used as a condition: true when `w` has any of the bits of `m`. */
  predicate Has(w: bv32, m: bv32) {
    w & m != 0
  }

  /** An unsigned value stored into a 32-bit register or variable. */
  function Word(n: nat): bv32
    requires n < 0x1_0000_0000
  {
    n as bv32
  }

  /** An unsigned value stored into a 16-bit bit field. */
  function Half(n: nat): bv16
    requires n < 0x1_0000
  {
    n as bv16
  }

  /** The C conversion of an integer to `uint32_t`: the value modulo 2^32. */
  function ToUint32(v: int): (r: nat)
    ensures r < 0x1_0000_0000 && (v - r) % 0x1_0000_0000 == 0
  {
    v % 0x1_0000_0000
  }

  /** A `uint32_t` stored into an `int`: values from 2^31 on wrap to negative ones, as gcc does. */
  function ToInt32(u: nat): (r: int)
    requires u < 0x1_0000_0000
    ensures -0x8000_0000 <= r < 0x8000_0000 && ToUint32(r) == u
  {
    if u < 0x8000_0000 then u else u - 0x1_0000_0000
  }

  /** A byte of packet data (`char` in the driver), only ever copied. */
  newtype byte = n: int | 0 <= n < 0x100

  /** The values of a 16-bit unsigned field that is only read and written as a number. */
  type uint16 = n: int | 0 <= n < 0x1_0000
}
