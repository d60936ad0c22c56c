/** The display state derived from the current index: the 1-based counter, the
    total shown beside it, the progress fill and the first/last flags on the
    presentation container. */
module Display {

  /** A progress proportion kept exact as numerator over denominator; the
      source turns it into a floating-point percentage. */
  datatype Fraction = Fraction(num: int, den: int)

  datatype Display = Display(counter: int, total: int, progress: Fraction,
                             firstSlide: bool, lastSlide: bool)

  /** What updateSlide, updateProgress and updateNavState publish for the
      given index, together with the total set once at startup. */
  function DisplayOf(current: int, total: int): (r: Display)
    ensures r.counter == current + 1 && r.total == total
    ensures r.progress == Fraction(r.counter, total)
    ensures r.firstSlide <==> current == 0
    ensures r.lastSlide <==> r.counter == total
    // for a valid position: the counter lies in 1..total and the proportion in (0, 1]
    ensures 0 <= current < total ==> 1 <= r.counter <= total && 0 < r.progress.num <= r.progress.den
    // the bar is full exactly on the last slide
    ensures 0 <= current < total ==> (r.progress.num == r.progress.den <==> r.lastSlide)
    // both flags are set together exactly when there is a single slide
    ensures 0 <= current < total ==> (r.firstSlide && r.lastSlide <==> total == 1)
  {
    Display(current + 1, total, Fraction(current + 1, total), current == 0, current == total - 1)
  }
}
