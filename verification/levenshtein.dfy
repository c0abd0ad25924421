/** Edit distance with unit costs for insertion, deletion and substitution (`Levenshtein.distance`). */
module Levenshtein {

  function Min3(x: nat, y: nat, z: nat): (m: nat)
    ensures m <= x && m <= y && m <= z
    ensures m == x || m == y || m == z
  {
    if x <= y && x <= z then x else if y <= z then y else z
  }

  function Max(x: nat, y: nat): nat
  {
    if x >= y then x else y
  }

  function Diff(x: nat, y: nat): nat
  {
    if x >= y then x - y else y - x
  }

  /**
   * The distance between two strings. It is at least the difference of their
   * lengths (every edit changes the length by at most one) and at most the
   * longer length (substitute the overlap, insert or delete the rest).
   */
  function Distance(a: string, b: string): (d: nat)
    ensures Diff(|a|, |b|) <= d <= Max(|a|, |b|)
    decreases |a| + |b|
  {
    if |a| == 0 then |b|
    else if |b| == 0 then |a|
    else
      Min3(Distance(a[1..], b) + 1,
           Distance(a, b[1..]) + 1,
           Distance(a[1..], b[1..]) + (if a[0] == b[0] then 0 else 1))
  }

  /** Distance zero means equal strings, and a string is at distance zero from itself. */
  lemma {:induction false} DistanceZeroIffEqual(a: string, b: string)
    ensures Distance(a, b) == 0 <==> a == b
    decreases |a| + |b|
  {
    if |a| == 0 || |b| == 0 {
    } else if a == b {
      DistanceZeroIffEqual(a[1..], b[1..]);
    } else if Distance(a, b) == 0 {
      DistanceZeroIffEqual(a[1..], b[1..]);
    }
  }

  /** The distance does not depend on the order of its arguments. */
  lemma {:induction false} DistanceSymmetric(a: string, b: string)
    ensures Distance(a, b) == Distance(b, a)
    decreases |a| + |b|
  {
    if |a| != 0 && |b| != 0 {
      DistanceSymmetric(a[1..], b);
      DistanceSymmetric(a, b[1..]);
      DistanceSymmetric(a[1..], b[1..]);
    }
  }
}
