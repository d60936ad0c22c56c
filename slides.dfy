/** The slide sequence and the one transition that changes it.

    A slide is an opaque element that carries a set of state tags (its CSS
    classes `active`, `prev` and `next`). A `Deck` is the abstract value of the
    presentation: the tags of every slide, in order, and the current index. */
module Slides {

  datatype Tag = Active | Prev | Next

  datatype Deck = Deck(tags: seq<set<Tag>>, current: int)

  /** The current index is a position of the deck; with no slides it stays at 0. */
  predicate IndexOk(current: int, total: int) {
    0 <= current < total || (current == 0 && total == 0)
  }

  predicate Wf(d: Deck) {
    IndexOk(d.current, |d.tags|)
  }

  /** Exactly the slide at the current index carries `active`. */
  predicate SingleActive(d: Deck) {
    forall k :: 0 <= k < |d.tags| ==> (Active in d.tags[k] <==> k == d.current)
  }

  /** The tag the leaving slide receives: `prev` only when the target lies
      strictly after it, so a same-index call counts as a backward move. */
  function ExitTag(leaving: int, index: int): (t: Tag)
    ensures t == Prev <==> index > leaving
    ensures t == Next <==> index <= leaving
  {
    if index > leaving then Prev else Next
  }

  /** goToSlide(index): an out-of-range index is silently dropped; otherwise the
      entering slide loses `prev`/`next`, the leaving slide trades `active` for
      its exit tag, the index is committed and the entering slide gains `active`,
      in that order (the two slides may be the same one). */
  function GoTo(d: Deck, index: int): (r: Deck)
    requires Wf(d)
    ensures Wf(r) && |r.tags| == |d.tags|
    // the bounds guard: nothing at all changes
    ensures index < 0 || index >= |d.tags| ==> r == d
    // the index is committed
    ensures 0 <= index < |d.tags| ==> r.current == index
    // forward move: the leaving slide trades `active` for `prev`, the entering
    // slide drops its direction tags and becomes active
    ensures 0 <= index < |d.tags| && index > d.current ==>
              r.tags[d.current] == d.tags[d.current] - {Active} + {Prev} &&
              r.tags[index] == d.tags[index] - {Prev, Next} + {Active}
    // backward move: the leaving slide trades `active` for `next`
    ensures 0 <= index < d.current ==>
              r.tags[d.current] == d.tags[d.current] - {Active} + {Next} &&
              r.tags[index] == d.tags[index] - {Prev, Next} + {Active}
    // same index: the one slide ends with `active` and `next` and nothing else
    ensures 0 <= index < |d.tags| && index == d.current ==> r.tags[index] == {Active, Next}
    // frame: every other slide keeps its tags, stale `prev`/`next` included
    ensures forall k :: 0 <= k < |d.tags| && k != d.current && k != index ==> r.tags[k] == d.tags[k]
    // a deck whose only active slide is the current one stays that way
    ensures SingleActive(d) ==> SingleActive(r)
  {
    if index < 0 || index >= |d.tags| then d
    else
      var leaving := d.current;
      var cleared := d.tags[index := d.tags[index] - {Prev, Next}];
      var left := cleared[leaving := cleared[leaving] - {Active} + {ExitTag(leaving, index)}];
      var entered := left[index := left[index] + {Active}];
      assert index == leaving ==> entered[index] == {Active, Next} by {
        if index == leaving {
          forall t: Tag ensures t in entered[index] <==> t == Active || t == Next {
          }
        }
      }
      Deck(entered, index)
  }

  /** nextSlide(): a move to the following index; a no-op at the last slide. */
  function StepForward(d: Deck): (r: Deck)
    requires Wf(d)
    ensures Wf(r) && |r.tags| == |d.tags|
    ensures d.current + 1 < |d.tags| ==> r.current == d.current + 1
    ensures d.current + 1 >= |d.tags| ==> r == d
    ensures SingleActive(d) ==> SingleActive(r)
  {
    GoTo(d, d.current + 1)
  }

  /** prevSlide(): a move to the preceding index; a no-op at the first slide. */
  function StepBack(d: Deck): (r: Deck)
    requires Wf(d)
    ensures Wf(r) && |r.tags| == |d.tags|
    ensures d.current > 0 ==> r.current == d.current - 1
    ensures d.current == 0 ==> r == d
    ensures SingleActive(d) ==> SingleActive(r)
  {
    GoTo(d, d.current - 1)
  }
}
