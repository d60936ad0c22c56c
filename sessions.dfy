/** Sequences of commands, as a run of input events delivers them one at a
    time, and what every reachable deck satisfies. */
module Sessions {
  import opened Slides
  import opened Input
  import opened Display

  /** The deck after the commands are carried out in order. */
  function Run(d: Deck, cs: seq<Command>): (r: Deck)
    requires Wf(d)
    ensures Wf(r) && |r.tags| == |d.tags|
    decreases |cs|
  {
    if cs == [] then d else Run(Perform(d, cs[0]), cs[1..])
  }

  /** The same command n times over. */
  function Repeat(c: Command, n: nat): (cs: seq<Command>)
    ensures |cs| == n && forall i :: 0 <= i < n ==> cs[i] == c
  {
    if n == 0 then [] else [c] + Repeat(c, n - 1)
  }

  function Min(a: int, b: int): int { if a <= b then a else b }

  function Max(a: int, b: int): int { if a >= b then a else b }

  /** Single-active holds in every state reached from one where it holds,
      whatever mix of keys, swipes and buttons produced the commands. */
  lemma {:induction false} RunKeepsSingleActive(d: Deck, cs: seq<Command>)
    requires Wf(d) && SingleActive(d)
    ensures SingleActive(Run(d, cs))
    decreases |cs|
  {
    if cs != [] {
      RunKeepsSingleActive(Perform(d, cs[0]), cs[1..]);
    }
  }

  /** n forward commands advance the index by n, stopping at the last slide. */
  lemma {:induction false} WalkForward(d: Deck, n: nat)
    requires Wf(d) && |d.tags| > 0
    ensures Run(d, Repeat(Forward, n)).current == Min(d.current + n, |d.tags| - 1)
    decreases n
  {
    if n > 0 {
      var cs := Repeat(Forward, n);
      assert cs[0] == Forward && cs[1..] == Repeat(Forward, n - 1);
      WalkForward(Perform(d, Forward), n - 1);
    }
  }

  /** n backward commands move the index back by n, stopping at the first slide. */
  lemma {:induction false} WalkBackward(d: Deck, n: nat)
    requires Wf(d)
    ensures Run(d, Repeat(Backward, n)).current == Max(d.current - n, 0)
    decreases n
  {
    if n > 0 {
      var cs := Repeat(Backward, n);
      assert cs[0] == Backward && cs[1..] == Repeat(Backward, n - 1);
      WalkBackward(Perform(d, Backward), n - 1);
    }
  }

  /** At the last slide, any number of forward commands change nothing at all. */
  lemma {:induction false} ForwardAtLastIsStable(d: Deck, n: nat)
    requires Wf(d) && d.current == |d.tags| - 1
    ensures Run(d, Repeat(Forward, n)) == d
  {
    if n > 0 {
      var cs := Repeat(Forward, n);
      assert cs[0] == Forward && cs[1..] == Repeat(Forward, n - 1);
      ForwardAtLastIsStable(d, n - 1);
    }
  }

  /** At the first slide, any number of backward commands change nothing at all. */
  lemma {:induction false} BackwardAtFirstIsStable(d: Deck, n: nat)
    requires Wf(d) && d.current == 0
    ensures Run(d, Repeat(Backward, n)) == d
  {
    if n > 0 {
      var cs := Repeat(Backward, n);
      assert cs[0] == Backward && cs[1..] == Repeat(Backward, n - 1);
      BackwardAtFirstIsStable(d, n - 1);
    }
  }

  /** Walking a five-slide deck from the start: four forward commands reach the
      last slide, whose counter reads 5 with the bar full and the last flag set. */
  lemma ForwardWalkScenario(d: Deck)
    requires |d.tags| == 5 && d.current == 0
    ensures var r := Run(d, Repeat(Forward, 4));
            r.current == 4 &&
            DisplayOf(r.current, 5) == Display(5, 5, Fraction(5, 5), false, true)
  {
  }

  /** On a five-slide deck at index 2, End goes to index 4 and Home then to 0. */
  lemma JumpScenario(d: Deck)
    requires |d.tags| == 5 && d.current == 2
    ensures Run(d, [JumpEnd]).current == 4
    ensures Run(d, [JumpEnd, JumpHome]).current == 0
  {
  }
}
