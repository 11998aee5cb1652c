/** Small things shared by the models. */
module Common {

  datatype Option<+T> = None | Some(value: T)

  /** `n` copies of some code, one after the other. */
  function Repeat<T>(code: seq<T>, n: nat): seq<T> {
    if n == 0 then [] else Repeat(code, n - 1) + code
  }

  /** How often a label occurs among some successors. */
  function CountEdges(succs: seq<nat>, target: nat): nat
    decreases |succs|
  {
    if succs == [] then 0
    else CountEdges(succs[..|succs| - 1], target) + if succs[|succs| - 1] == target then 1 else 0
  }

  lemma {:induction false} EdgeCounted(succs: seq<nat>, target: nat, k: nat)
    requires k < |succs| && succs[k] == target
    ensures CountEdges(succs, target) > 0
    decreases |succs|
  {
    if k < |succs| - 1 {
      EdgeCounted(succs[..|succs| - 1], target, k);
    }
  }

  lemma {:induction false} NoEdgeNoCount(succs: seq<nat>, target: nat)
    requires target !in succs
    ensures CountEdges(succs, target) == 0
    decreases |succs|
  {
    if succs != [] {
      NoEdgeNoCount(succs[..|succs| - 1], target);
    }
  }

  /** Replaces every occurrence of a successor. */
  function RedirectedSuccs(succs: seq<nat>, from: nat, to: nat): (r: seq<nat>)
    ensures |r| == |succs|
    ensures forall k | 0 <= k < |succs| :: r[k] == if succs[k] == from then to else succs[k]
  {
    seq(|succs|, k requires 0 <= k < |succs| => if succs[k] == from then to else succs[k])
  }

  /** A number above all those in use. */
  method Fresh(used: set<nat>) returns (n: nat)
    ensures forall u | u in used :: u < n
  {
    n := 0;
    var todo := used;
    while todo != {}
      invariant todo <= used
      invariant forall x | x in used :: x in todo || x < n
      decreases todo
    {
      var u :| u in todo;
      n := if u < n then n else u + 1;
      todo := todo - {u};
    }
  }
}
