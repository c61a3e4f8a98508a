/** Arithmetic shared by the driver models. */
module Numbers {

  function Min(a: nat, b: nat): nat { if a <= b then a else b }

  function Sum(s: seq<nat>): nat
    decreases |s|
  {
    if s == [] then 0 else Sum(s[..|s| - 1]) + s[|s| - 1]
  }

  type U32 = x: int | 0 <= x < 0x1_0000_0000

  /** What a 32-bit unsigned expression keeps of a number. */
  function Wrap32(x: nat): (w: nat)
    ensures w < 0x1_0000_0000 && w <= x
  {
    x % 0x1_0000_0000
  }
}
