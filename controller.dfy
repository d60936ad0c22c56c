/** The presentation controller itself: the slide elements with their tags, the
    current index, the published display state and the last two touch
    coordinates, changed in place by the listeners. */
module Controller {
  import opened Slides
  import opened Display
  import opened Input

  class Presentation {
    /** The slides found at startup, each with its set of state tags. */
    const slides: array<set<Tag>>
    const totalSlides: int
    var currentIndex: int
    /** What the counter, progress bar and container flags currently show. */
    var display: Display
    var touchStartX: int
    var touchEndX: int

    ghost predicate Valid()
      reads this
    {
      slides.Length == totalSlides &&
      IndexOk(currentIndex, totalSlides) &&
      display == DisplayOf(currentIndex, totalSlides)
    }

    /** The abstract deck: every slide's tags and the current index. */
    ghost function Model(): (d: Deck)
      reads this, slides
      ensures |d.tags| == slides.Length && d.current == currentIndex
    {
      Deck(slides[..], currentIndex)
    }

    /** Startup: the slides come with the tags their markup gives them; the
        index starts at 0, the total is published once and the display is
        refreshed. */
    constructor (markup: seq<set<Tag>>)
      ensures Valid() && fresh(slides)
      ensures Model() == Deck(markup, 0)
      ensures display == DisplayOf(0, |markup|)
      ensures touchStartX == 0 && touchEndX == 0
    {
      slides := new set<Tag>[|markup|](i requires 0 <= i < |markup| => markup[i]);
      totalSlides := |markup|;
      currentIndex := 0;
      touchStartX, touchEndX := 0, 0;
      new;
      display := display.(total := totalSlides);
      UpdateSlide();
      UpdateProgress();
      UpdateNavState();
    }

    /** updateSlide: the counter shows the 1-based position. */
    method UpdateSlide()
      modifies this`display
      ensures display == old(display).(counter := DisplayOf(currentIndex, totalSlides).counter)
    {
      display := display.(counter := currentIndex + 1);
    }

    /** updateProgress: the bar is filled to (currentIndex + 1) / totalSlides. */
    method UpdateProgress()
      modifies this`display
      ensures display == old(display).(progress := DisplayOf(currentIndex, totalSlides).progress)
    {
      display := display.(progress := Fraction(currentIndex + 1, totalSlides));
    }

    /** updateNavState: the container's first-slide and last-slide flags. */
    method UpdateNavState()
      modifies this`display
      ensures display == old(display).(firstSlide := DisplayOf(currentIndex, totalSlides).firstSlide,
                                       lastSlide := DisplayOf(currentIndex, totalSlides).lastSlide)
    {
      display := display.(firstSlide := currentIndex == 0, lastSlide := currentIndex == totalSlides - 1);
    }

    /** goToSlide: the single mutating transition. */
    method GoToSlide(index: int)
      requires Valid()
      modifies this`currentIndex, this`display, slides
      ensures Valid()
      ensures Model() == GoTo(old(Model()), index)
      ensures SingleActive(old(Model())) ==> SingleActive(Model())
    {
      if index < 0 || index >= totalSlides {
        return;
      }
      var leaving := currentIndex;
      var goingForward := index > currentIndex;
      slides[index] := slides[index] - {Prev, Next};
      slides[leaving] := slides[leaving] - {Active} + {if goingForward then Prev else Next};
      currentIndex := index;
      slides[index] := slides[index] + {Active};
      UpdateSlide();
      UpdateProgress();
      UpdateNavState();
    }

    /** nextSlide, also the forward button's click handler. */
    method NextSlide()
      requires Valid()
      modifies this`currentIndex, this`display, slides
      ensures Valid()
      ensures Model() == StepForward(old(Model()))
      ensures old(currentIndex) == totalSlides - 1 ==> Model() == old(Model())
      ensures SingleActive(old(Model())) ==> SingleActive(Model())
    {
      GoToSlide(currentIndex + 1);
    }

    /** prevSlide, also the backward button's click handler. */
    method PrevSlide()
      requires Valid()
      modifies this`currentIndex, this`display, slides
      ensures Valid()
      ensures Model() == StepBack(old(Model()))
      ensures old(currentIndex) == 0 ==> Model() == old(Model())
      ensures SingleActive(old(Model())) ==> SingleActive(Model())
    {
      GoToSlide(currentIndex - 1);
    }

    /** The keydown listener: dispatch on the key name. */
    method HandleKey(key: string)
      requires Valid()
      modifies this`currentIndex, this`display, slides
      ensures Valid()
      ensures Model() == Respond(old(Model()), KeyCommand(key))
      ensures key !in RecognizedKeys ==> Model() == old(Model())
      ensures SingleActive(old(Model())) ==> SingleActive(Model())
    {
      if key == "ArrowRight" || key == " " {
        NextSlide();
      } else if key == "ArrowLeft" {
        PrevSlide();
      } else if key == "Home" {
        GoToSlide(0);
      } else if key == "End" {
        GoToSlide(totalSlides - 1);
      }
    }

    /** The touchstart listener records where the gesture began. */
    method TouchStart(screenX: int)
      modifies this`touchStartX
      ensures touchStartX == screenX
      ensures Valid() <==> old(Valid())
    {
      touchStartX := screenX;
    }

    /** The touchend listener records where the gesture ended and classifies it. */
    method TouchEnd(screenX: int)
      requires Valid()
      modifies this`touchEndX, this`currentIndex, this`display, slides
      ensures Valid() && touchEndX == screenX
      ensures Model() == Respond(old(Model()), SwipeCommand(touchStartX, screenX))
      ensures SingleActive(old(Model())) ==> SingleActive(Model())
    {
      touchEndX := screenX;
      HandleSwipe();
    }

    /** handleSwipe: a long enough horizontal travel moves one slide. */
    method HandleSwipe()
      requires Valid()
      modifies this`currentIndex, this`display, slides
      ensures Valid()
      ensures Model() == Respond(old(Model()), SwipeCommand(touchStartX, touchEndX))
      ensures SingleActive(old(Model())) ==> SingleActive(Model())
    {
      var diff := touchStartX - touchEndX;
      if Abs(diff) > SwipeThreshold {
        if diff > 0 {
          NextSlide();
        } else {
          PrevSlide();
        }
      }
    }
  }
}
