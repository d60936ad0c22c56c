/** The decision rules of the keyboard and touch channels, and the transition
    each recognised command performs. */
module Input {
  import opened Slides

  datatype Option<T> = None | Some(value: T)

  /** The four things an input can ask for. */
  datatype Command = Forward | Backward | JumpHome | JumpEnd

  /** Minimum horizontal travel, in screen units, that counts as a swipe. */
  const SwipeThreshold: int := 50

  /** The keys the keydown listener reacts to. */
  const RecognizedKeys: set<string> := {"ArrowRight", " ", "ArrowLeft", "Home", "End"}

  function Abs(x: int): (r: int)
    ensures r >= 0 && (r == x || r == -x)
  {
    if x < 0 then -x else x
  }

  /** The keydown switch: right arrow and space go forward, left arrow goes
      back, Home and End jump to the ends; any other key is ignored. */
  function KeyCommand(key: string): (r: Option<Command>)
    ensures r == Some(Forward) <==> key == "ArrowRight" || key == " "
    ensures r == Some(Backward) <==> key == "ArrowLeft"
    ensures r == Some(JumpHome) <==> key == "Home"
    ensures r == Some(JumpEnd) <==> key == "End"
    ensures r.None? <==> key !in RecognizedKeys
  {
    if key == "ArrowRight" || key == " " then Some(Forward)
    else if key == "ArrowLeft" then Some(Backward)
    else if key == "Home" then Some(JumpHome)
    else if key == "End" then Some(JumpEnd)
    else None
  }

  /** handleSwipe: with diff = startX - endX, a travel of more than the
      threshold to the left goes forward, to the right goes back, anything
      shorter does nothing. */
  function SwipeCommand(startX: int, endX: int): (r: Option<Command>)
    ensures r == Some(Forward) <==> startX - endX > SwipeThreshold
    ensures r == Some(Backward) <==> endX - startX > SwipeThreshold
    ensures r.None? <==> -SwipeThreshold <= startX - endX <= SwipeThreshold
    ensures r != Some(JumpHome) && r != Some(JumpEnd)
  {
    var diff := startX - endX;
    if Abs(diff) > SwipeThreshold then
      if diff > 0 then Some(Forward) else Some(Backward)
    else None
  }

  /** A command as the listeners carry it out: nextSlide, prevSlide,
      goToSlide(0) or goToSlide(totalSlides - 1). */
  function Perform(d: Deck, c: Command): (r: Deck)
    requires Wf(d)
    ensures Wf(r) && |r.tags| == |d.tags|
    ensures c == JumpHome && |d.tags| > 0 ==> r.current == 0
    ensures c == JumpEnd && |d.tags| > 0 ==> r.current == |d.tags| - 1
    ensures c == Forward ==> r.current == if d.current + 1 < |d.tags| then d.current + 1 else d.current
    ensures c == Backward ==> r.current == if d.current > 0 then d.current - 1 else d.current
    ensures |d.tags| == 0 ==> r == d
    ensures SingleActive(d) ==> SingleActive(r)
  {
    match c
    case Forward => StepForward(d)
    case Backward => StepBack(d)
    case JumpHome => GoTo(d, 0)
    case JumpEnd => GoTo(d, |d.tags| - 1)
  }

  /** The effect of an input whose rule may have recognised no command. */
  function Respond(d: Deck, c: Option<Command>): (r: Deck)
    requires Wf(d)
    ensures Wf(r) && |r.tags| == |d.tags|
    ensures c.None? ==> r == d
    ensures SingleActive(d) ==> SingleActive(r)
  {
    match c
    case None => d
    case Some(cmd) => Perform(d, cmd)
  }
}
