/**
  A flag sampled again and again: the sequence of its levels, the edges between
  neighbouring levels, and the length of the hold that is in progress.
 */
module Signals {

  function One(b: bool): nat { if b then 1 else 0 }

  /** The edge between two samples; true is a press, false a release. */
  function Change(before: bool, after: bool): seq<bool> {
    if before == after then [] else [after]
  }

  /** All edges along a non-empty sequence of levels. */
  function EdgesOf(levels: seq<bool>): seq<bool>
    requires levels != []
  {
    var n := |levels| - 1;
    if n == 0 then [] else EdgesOf(levels[..n]) + Change(levels[n - 1], levels[n])
  }

  function Count(edges: seq<bool>, b: bool): nat {
    if edges == [] then 0
    else Count(edges[..|edges| - 1], b) + One(edges[|edges| - 1] == b)
  }

  ghost predicate AlternatesFrom(edges: seq<bool>, held: bool) {
    forall i | 0 <= i < |edges| :: edges[i] == ((i % 2 == 0) != held)
  }

  /** Edges alternate, starting with a press if the flag was clear, and flip the level once each. */
  lemma {:induction false} EdgesAlternate(levels: seq<bool>)
    requires levels != []
    ensures AlternatesFrom(EdgesOf(levels), levels[0])
    ensures levels[|levels| - 1] == ((|EdgesOf(levels)| % 2 == 1) != levels[0])
    ensures |EdgesOf(levels)| < |levels|
  {
    var n := |levels| - 1;
    if n > 0 { EdgesAlternate(levels[..n]); }
  }

  lemma CountConcat(a: seq<bool>, before: bool, after: bool, b: bool)
    ensures Count(a + Change(before, after), b) == Count(a, b) + One(before != after && after == b)
  {
    var e := a + Change(before, after);
    if before == after {
      assert e == a;
    } else {
      assert e[..|e| - 1] == a;
    }
  }

  lemma {:induction false} LevelIsSumOfEdges(levels: seq<bool>)
    requires levels != []
    ensures One(levels[|levels| - 1])
         == One(levels[0]) + Count(EdgesOf(levels), true) - Count(EdgesOf(levels), false)
  {
    var n := |levels| - 1;
    if n > 0 {
      LevelIsSumOfEdges(levels[..n]);
      CountConcat(EdgesOf(levels[..n]), levels[n - 1], levels[n], true);
      CountConcat(EdgesOf(levels[..n]), levels[n - 1], levels[n], false);
    }
  }

  // ---- Rising edges under a gate ---------------------------------------------

  /** Between samples i and i + 1 the flag rises, and the gate is up afterwards. */
  predicate GatedRise(gate: seq<bool>, levels: seq<bool>, i: nat)
    requires i + 1 < |levels| == |gate|
  {
    gate[i + 1] && levels[i + 1] && !levels[i]
  }

  function GatedRises(gate: seq<bool>, levels: seq<bool>): nat
    requires |gate| == |levels| > 0
  {
    var n := |levels| - 1;
    if n == 0 then 0 else GatedRises(gate[..n], levels[..n]) + One(GatedRise(gate, levels, n - 1))
  }

  /** Two neighbouring steps cannot both rise, so at most every other step does. */
  lemma {:induction false} GatedRisesApart(gate: seq<bool>, levels: seq<bool>)
    requires |gate| == |levels| > 0
    ensures 2 * GatedRises(gate, levels) <= |levels| - 1 + One(levels[|levels| - 1])
  {
    var n := |levels| - 1;
    if n > 0 { GatedRisesApart(gate[..n], levels[..n]); }
  }
}
