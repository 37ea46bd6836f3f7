/** Sequences with one element less or more. */
module Seqs {
  function Without<T>(s: seq<T>, j: nat): seq<T>
    requires j < |s|
  {
    s[..j] + s[j + 1..]
  }

  function With<T>(s: seq<T>, j: nat, l: T): seq<T>
    requires j <= |s|
  {
    s[..j] + [l] + s[j..]
  }

  /** Where x is in s, or the length of s. */
  function Position<T(==)>(s: seq<T>, x: T): (k: nat)
    ensures k <= |s| && (k < |s| ==> s[k] == x) && forall j :: 0 <= j < k ==> s[j] != x
  {
    if s == [] then 0 else if s[0] == x then 0 else 1 + Position(s[1..], x)
  }

  lemma IsPosition<T>(s: seq<T>, x: T, k: nat)
    requires k <= |s| && (k < |s| ==> s[k] == x) && forall j :: 0 <= j < k ==> s[j] != x
    ensures Position(s, x) == k
  {
  }

  /** s with x brought to a height, or taken out at a negative one. */
  function Restacked<T(==)>(s: seq<T>, x: T, height: int): seq<T> {
    var k := Position(s, x);
    if height < 0 then (if k < |s| then Without(s, k) else s)
    else
      var rest := if k < |s| then Without(s, k) else s;
      With(rest, if height < |rest| then height else |rest|, x)
  }

  lemma WithWithout<T>(s: seq<T>, j: nat)
    requires j < |s|
    ensures With(Without(s, j), j, s[j]) == s
    ensures Without(s, j)[j..] == s[j + 1..] && Without(s, j)[..j] == s[..j]
  {
  }
}
