/** Bytes, and the MIN, MAX and CLAMP of the core headers. */
module Numbers {

  newtype byte = x: int | 0 <= x < 256

  function Min(a: int, b: int): int { if a < b then a else b }

  function Max(a: int, b: int): int { if a > b then a else b }

  function Clamp(v: int, lo: int, hi: int): int { Min(Max(v, lo), hi) }
}
