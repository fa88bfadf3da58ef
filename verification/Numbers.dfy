/** Numbers that several components share: reals with an infinity, and the 64-bit range. */
module Numbers {

  /** A real or plus infinity. */
  datatype Extended = Fin(r: real) | Inf

  predicate Less(a: Extended, b: Extended) { a.Fin? && (b.Inf? || a.r < b.r) }

  const TWO_63: int := 0x8000_0000_0000_0000
  const TWO_64: int := 0x1_0000_0000_0000_0000

  function Clip(x: real, lo: real, hi: real): real { if x < lo then lo else if x > hi then hi else x }

  /** Clipping keeps what is in the range and moves the rest to its nearest point. */
  lemma ClipIsNearest(x: real, lo: real, hi: real, z: real)
    requires lo <= z <= hi
    ensures lo <= Clip(x, lo, hi) <= hi
    ensures x <= Clip(x, lo, hi) <= z || z <= Clip(x, lo, hi) <= x || Clip(x, lo, hi) == x
  {
  }
}
