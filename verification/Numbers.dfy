/** Facts about numbers that more than one part of the model uses. */
module Numbers {

  function Min(a: nat, b: nat): nat {
    if a < b then a else b
  }

  lemma MultiplyAtLeast(b: int, d: int)
    requires b >= 0
    ensures d >= 1 ==> b * d >= b
    ensures d <= -1 ==> b * d <= -b
  {
  }
}
