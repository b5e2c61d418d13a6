/** Powers of two. */
module Powers {

  function Pow2(e: nat): (n: nat)
    ensures n >= 1
  {
    if e == 0 then 1 else 2 * Pow2(e - 1)
  }
}
