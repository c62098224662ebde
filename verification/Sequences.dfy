/** Sequence operations shared by the models. */
module Sequences {

  /** The sequence without its p-th element. */
  function Without<T>(s: seq<T>, p: nat): (r: seq<T>)
    requires p < |s|
    ensures |r| == |s| - 1
    ensures forall i {:trigger r[i]} :: 0 <= i < p ==> r[i] == s[i]
    ensures forall i :: p <= i < |r| ==> r[i] == s[i + 1]
  {
    s[..p] + s[p + 1..]
  }

  function Joined<T>(parts: seq<seq<T>>): seq<T> {
    if parts == [] then [] else parts[0] + Joined(parts[1..])
  }

  lemma JoinedFirst<T>(d: seq<T>, parts: seq<seq<T>>)
    ensures Joined([d] + parts) == d + Joined(parts)
  {
    assert ([d] + parts)[1..] == parts;
  }
}
