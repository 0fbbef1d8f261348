/** Numbers that several models need. */
module Numbers {
  const MAX_UINT64: nat := 0xFFFF_FFFF_FFFF_FFFF

  function Pow2(n: nat): nat
  {
    if n == 0 then 1 else 2 * Pow2(n - 1)
  }

  lemma Pow2Positive(n: nat)
    ensures Pow2(n) >= 1
  {
  }

  function Least(a: int, b: int): int
  {
    if a < b then a else b
  }

  ghost function Sum(s: seq<nat>): nat
  {
    if s == [] then 0 else Sum(s[..|s| - 1]) + s[|s| - 1]
  }
}
