/** Go's conversion of a float to an integer. */
module GoNumbers {

  /** The fraction is dropped. */
  function Truncate(r: real): int {
    if r >= 0.0 then r.Floor else -(-r).Floor
  }

  lemma {:induction false} TruncateIsClose(r: real)
    ensures r >= 0.0 ==> 0.0 <= Truncate(r) as real <= r < Truncate(r) as real + 1.0
    ensures r < 0.0 ==> r <= Truncate(r) as real <= 0.0 && Truncate(r) as real < r + 1.0
  {}

  lemma {:induction false} TruncateStaysWithin(r: real, range: real)
    requires -range <= r <= range
    ensures -range <= Truncate(r) as real <= range
  {}
}
