/** The dynasty ranking lookups `dynastyOrder[name] || 999` of src/main.js
    and src/components/LocationEvent/LocationEvent.jsx. Both order objects
    give their dynasties the ranks 1, 2, 3, ... in the order they are
    written, so each is modelled by the list of its names. */
module Ranking {

  /** The rank of a name missing from the order object. */
  const Unranked: nat := 999

  /** The position of the first `name` in `names`, or `|names|` when absent. */
  function Position(names: seq<string>, name: string): (p: nat)
    ensures p <= |names|
    ensures p < |names| ==> names[p] == name
    ensures forall k :: 0 <= k < p ==> names[k] != name
  {
    if names == [] then 0
    else if names[0] == name then 0
    else 1 + Position(names[1..], name)
  }

  /** `order[name] || 999` for the order object listing `names`. */
  function RankIn(names: seq<string>, name: string): nat {
    if name in names then Position(names, name) + 1 else Unranked
  }

  /** A listed name has its place in the list as its rank, counting from 1;
      any other name ranks 999, behind every listed one. */
  lemma {:induction false} RankInMeaning(names: seq<string>, name: string)
    requires |names| < Unranked
    ensures name in names <==> RankIn(names, name) != Unranked
    ensures name in names ==> 1 <= RankIn(names, name) <= |names| && names[RankIn(names, name) - 1] == name
    ensures name !in names ==> forall k :: 0 <= k < |names| ==> RankIn(names, names[k]) < RankIn(names, name)
  {
    if name !in names {
      forall k | 0 <= k < |names| ensures RankIn(names, names[k]) < RankIn(names, name) {
        var p := Position(names, names[k]);
        assert p <= k;
      }
    }
  }
}
