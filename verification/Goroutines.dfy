/** The goroutines that handle one page of a cleanup: which of them takes its next step is open. */
module Goroutines {
  import opened Sums

  /** A goroutine that goes on has so many steps left; one that has met an error is over. */
  datatype Goroutine = Running(left: nat) | Broken

  function Left(g: Goroutine): int {
    if g.Running? then g.left else 0
  }

  /** The goroutines that go on. */
  function Unfinished(gs: seq<Goroutine>): set<nat> {
    set k: nat | k < |gs| && Left(gs[k]) > 0
  }

  predicate NoneBroken(gs: seq<Goroutine>) {
    forall k | 0 <= k < |gs| :: gs[k].Running?
  }

  function BrokenOnes(gs: seq<Goroutine>): set<nat> {
    set k: nat | k < |gs| && gs[k].Broken?
  }

  lemma BrokenOnesEmpty(gs: seq<Goroutine>)
    ensures |BrokenOnes(gs)| == 0 <==> NoneBroken(gs)
  {
    if BrokenOnes(gs) == {} {
      forall k | 0 <= k < |gs| ensures gs[k].Running? {
        assert k !in BrokenOnes(gs);
      }
    } else {
      var k :| k in BrokenOnes(gs);
      assert !gs[k].Running?;
    }
  }

  /** All goroutines of a page before their first step. */
  function Started(count: nat, steps: nat): (gs: seq<Goroutine>)
    ensures |gs| == count && forall k | 0 <= k < count :: gs[k] == Running(steps)
  {
    seq(count, _ => Running(steps))
  }

  /** A page comes to an end: every step, or error, of one goroutine leaves fewer steps. */
  lemma FewerSteps(gs: seq<Goroutine>, k: nat, g: Goroutine)
    requires k < |gs| && Left(g) < Left(gs[k])
    ensures 0 <= Sum(gs[k := g], Left) < Sum(gs, Left)
    ensures g.Running? && NoneBroken(gs) ==> NoneBroken(gs[k := g])
  {
    SumUpdate(gs, k, g, Left);
    SumNonNegative(gs[k := g], Left);
  }

  /** When every goroutine is over and none has met an error, each has taken all its steps. */
  lemma AllDone(gs: seq<Goroutine>, k: nat)
    requires Unfinished(gs) == {} && NoneBroken(gs) && k < |gs|
    ensures gs[k] == Running(0)
  {
    assert k !in Unfinished(gs);
  }
}
