/**
  The `slide-counter` component attached to every slide entity: clicking a slide
  ("interact") shrinks that slide and shows the next one large, wrapping round after
  the last. The component uses its OWN index (`data.index`, the entity's position in
  the deck), not a shared one, and `onNext` never changes it.

  Ownership is decided by the networking library, whose `isMine` and `takeOwnership`
  are not part of this model: their answers are the parameters `isMine` and
  `takeOwnership` of `OnNext`.
*/
module SlideCounter {
  import opened Slides

  /** The slide `onNext` shows after slide `current` of a deck of `max` slides. */
  function NextSlide(current: int, max: int): (next: int)
    ensures next == 0 || next == current + 1
    ensures 0 <= current < max ==> 0 <= next < max
  {
    if current < max - 1 then current + 1 else 0
  }

  /** On a valid index the next slide is the modular successor; the last wraps to the first. */
  lemma NextSlideIsModularIncrement(current: int, max: int)
    requires 0 <= current < max
    ensures 0 <= NextSlide(current, max) < max
    ensures NextSlide(current, max) == (current + 1) % max
    ensures current == max - 1 ==> NextSlide(current, max) == 0
  {
    if current == max - 1 {
      assert (current + 1) % max == max % max == 0;
    }
  }

  /** Scales after `onNext` of slide `current`: it is shrunk, then its successor enlarged. */
  function ScalesAfterNext(scales: seq<real>, current: int): (r: seq<real>)
    requires 0 <= current < |scales|
    ensures |r| == |scales|
    ensures r[NextSlide(current, |scales|)] == SlideScale
  {
    scales[current := LinkScale][NextSlide(current, |scales|) := SlideScale]
  }

  /**
    The two slides `onNext` touches and no others: the successor is large, the clicked
    slide (if it is not its own successor, in a one-slide deck) is shrunk, the rest keep
    their scales.
  */
  lemma ScalesAfterNextAt(scales: seq<real>, current: int, i: int)
    requires 0 <= current < |scales| && 0 <= i < |scales|
    ensures ScalesAfterNext(scales, current)[i]
         == if i == NextSlide(current, |scales|) then SlideScale
            else if i == current then LinkScale
            else scales[i]
  {
  }

  /** The large slides after `onNext` of `current`: the clicked one leaves, its successor joins. */
  lemma LargeAfterNext(scales: seq<real>, current: int)
    requires 0 <= current < |scales|
    ensures LargeSlides(ScalesAfterNext(scales, current))
         == LargeSlides(scales) - {current} + {NextSlide(current, |scales|)}
  {
    var after := ScalesAfterNext(scales, current);
    var next := NextSlide(current, |scales|);
    forall i ensures i in LargeSlides(after) <==> i in LargeSlides(scales) - {current} + {next} {
      if 0 <= i < |scales| {
        ScalesAfterNextAt(scales, current, i);
      }
    }
  }

  /**
    From a state with exactly one large slide `shown`, clicking slide `clicked` leaves
    exactly one large slide if and only if the clicked slide is the one on show or its
    successor is; otherwise two slides are large.
  */
  lemma OneLargeKeptIff(scales: seq<real>, shown: int, clicked: int)
    requires 0 <= clicked < |scales|
    requires LargeSlides(scales) == {shown}
    ensures |LargeSlides(ScalesAfterNext(scales, clicked))| == 1
        <==> clicked == shown || NextSlide(clicked, |scales|) == shown
    ensures clicked == shown ==> LargeSlides(ScalesAfterNext(scales, clicked)) == {NextSlide(clicked, |scales|)}
  {
    var next := NextSlide(clicked, |scales|);
    LargeAfterNext(scales, clicked);
    if clicked == shown {
      assert {shown} - {clicked} == {};
    } else if next == shown {
      assert {shown} - {clicked} + {next} == {shown};
    } else {
      assert {shown} - {clicked} + {next} == {shown, next};
      assert |{shown, next}| == 2;
    }
  }

  /** Scales after clicking the slide on show `clicks` times, starting with `shown` on show. */
  function Tour(scales: seq<real>, shown: int, clicks: nat): (r: seq<real>)
    requires 0 <= shown < |scales|
    ensures |r| == |scales|
    decreases clicks
  {
    if clicks == 0 then scales
    else
      NextSlideIsModularIncrement(shown, |scales|);
      Tour(ScalesAfterNext(scales, shown), NextSlide(shown, |scales|), clicks - 1)
  }

  /** A positive multiple of a positive number is at least that number. */
  lemma {:induction false} MulAtLeast(d: int, n: int)
    requires d >= 1 && n > 0
    ensures d * n >= n
    decreases d
  {
    if d > 1 {
      MulAtLeast(d - 1, n);
      assert d * n == (d - 1) * n + n;
    }
  }

  /** Euclidean division is unique: a quotient and remainder in range are `/` and `%`. */
  lemma DivModUnique(x: int, n: int, q: int, r: int)
    requires n > 0 && 0 <= r < n && x == q * n + r
    ensures x % n == r
  {
    var q', r' := x / n, x % n;
    assert x == q' * n + r' && 0 <= r' < n;
    var d := q - q';
    assert d * n == q * n - q' * n;
    assert d * n == r' - r;
    if d >= 1 {
      MulAtLeast(d, n);
    } else if d <= -1 {
      MulAtLeast(-d, n);
    }
  }

  /** Adding one, reducing and adding `t` more is adding `t + 1` and reducing. */
  lemma ModularStep(a: int, t: nat, n: int)
    requires 0 <= a < n
    ensures ((a + 1) % n + t) % n == (a + 1 + t) % n
  {
    if a == n - 1 {
      DivModUnique(a + 1, n, 1, 0);
      DivModUnique(n + t, n, t / n + 1, t % n);
    } else {
      DivModUnique(a + 1, n, 0, a + 1);
    }
  }

  /**
    Clicking the slide on show keeps exactly one slide large, and the slides come up in
    deck order, wrapping round: after `clicks` clicks slide `(shown + clicks) mod n` is on show.
  */
  lemma {:induction false} TourShowsInOrder(scales: seq<real>, shown: int, clicks: nat)
    requires 0 <= shown < |scales|
    requires LargeSlides(scales) == {shown}
    ensures LargeSlides(Tour(scales, shown, clicks)) == {(shown + clicks) % |scales|}
    decreases clicks
  {
    var n := |scales|;
    if clicks == 0 {
      DivModUnique(shown, n, 0, shown);
    } else {
      var next := NextSlide(shown, n);
      var after := ScalesAfterNext(scales, shown);
      assert Tour(scales, shown, clicks) == Tour(after, next, clicks - 1);
      NextSlideIsModularIncrement(shown, n);
      OneLargeKeptIff(scales, shown, shown);
      TourShowsInOrder(after, next, clicks - 1);
      ModularStep(shown, clicks - 1, n);
      assert (next + (clicks - 1)) % n == (shown + clicks) % n;
    }
  }

  /**
    Three slides, owned locally, three clicks on the slide on show: slides 1, 2 and 0
    come up in turn, each time the only large one.
  */
  lemma ThreeSlideTour()
    ensures LargeSlides(Tour(SetupScales(3), 0, 1)) == {1}
    ensures LargeSlides(Tour(SetupScales(3), 0, 2)) == {2}
    ensures LargeSlides(Tour(SetupScales(3), 0, 3)) == {0}
  {
    SetupShowsOnlyFirst(3);
    TourShowsInOrder(SetupScales(3), 0, 1);
    TourShowsInOrder(SetupScales(3), 0, 2);
    TourShowsInOrder(SetupScales(3), 0, 3);
  }

  /** How a call of `onNext` ends. */
  datatype NextOutcome =
    | NotOwned   // networked, not ours, and ownership refused: nothing happens
    | Advanced   // the clicked slide shrunk and its successor enlarged
    | TypeError  // `slides` not yet set, or the component's index outside the deck

  /**
    The outcome of `onNext` for a component whose networked entity is (`resolved`) or is
    not yet known, with index `current` in a deck of `max` slides. `takeOwnership` is
    only consulted when `isMine` is false. Only an owner, or one that has just taken
    ownership, can move the slides on.
  */
  function Decide(resolved: bool, isMine: bool, takeOwnership: bool, current: int, max: int): (outcome: NextOutcome)
    ensures outcome == NotOwned <==> resolved && !isMine && !takeOwnership
    ensures outcome == Advanced <==> resolved && (isMine || takeOwnership) && 0 <= current < max
    ensures outcome == TypeError <==> !resolved || ((isMine || takeOwnership) && !(0 <= current < max))
  {
    if resolved && !isMine && !takeOwnership then NotOwned
    else if !resolved then TypeError
    else if 0 <= current < max then Advanced
    else TypeError
  }

  /** An instance of the `slide-counter` component. */
  class Counter {
    /** `this.data.index`: the slide this entity shows (schema default 0). */
    var index: int
    /** Whether `getNetworkedEntity` has resolved (`this.networkedEl` is set). */
    var networkedEl: bool
    /** `this.slides`, set together with `networkedEl`. */
    var slides: Deck?
    /** `this.max`: the deck size read when the networked entity resolved. */
    var max: int
    /** `this.currentSlide`. */
    var currentSlide: int

    ghost predicate Valid()
      reads this
    {
      networkedEl <==> slides != null
    }

    /**
      `init()`, subscribing to clicks and starting to wait for the networked entity,
      followed by the first `update()` A-Frame runs after it, which sets `currentSlide`.
    */
    constructor (index: int)
      ensures Valid() && !networkedEl && this.index == index && currentSlide == index
    {
      this.index := index;
      networkedEl := false;
      slides := null;
      max := 0;
      currentSlide := index;
    }

    /** The continuation of `init`'s `getNetworkedEntity` promise. */
    method Resolve(deck: Deck)
      modifies this`networkedEl, this`slides, this`max, this`currentSlide
      ensures Valid() && networkedEl && slides == deck
      ensures max == |deck.loaded| && currentSlide == index
    {
      networkedEl := true;
      slides := deck;
      max := |slides.loaded|;
      currentSlide := index;
    }

    /** `update(oldData)`, run after the component's data has become `data`. */
    method Update(data: int)
      requires Valid()
      modifies this`index, this`currentSlide
      ensures Valid() && index == data && currentSlide == data
    {
      index := data;
      currentSlide := index;
    }

    /**
      `onNext()`, on an "interact" event. `max` is the deck size the component read when it
      resolved, so the deck must not have been reloaded since.
    */
    method OnNext(isMine: bool, takeOwnership: bool) returns (outcome: NextOutcome)
      requires Valid()
      requires slides != null ==> max == |slides.loaded| && Distinct(slides.loaded)
      modifies (if slides == null then {} else Members(slides.loaded))`scale
      ensures outcome == Decide(networkedEl, isMine, takeOwnership, currentSlide, max)
      ensures outcome == Advanced ==>
        Scales(slides.loaded) == ScalesAfterNext(old(Scales(slides.loaded)), currentSlide)
      ensures outcome != Advanced && slides != null ==>
        Scales(slides.loaded) == old(Scales(slides.loaded))
    {
      if networkedEl && !isMine && !takeOwnership {
        return NotOwned;
      }
      if slides == null || !(0 <= currentSlide < max) {
        return TypeError;
      }
      var loaded := slides.loaded;
      if currentSlide < max - 1 {
        loaded[currentSlide].scale := LinkScale;
        loaded[currentSlide + 1].scale := SlideScale;
      } else {
        loaded[currentSlide].scale := LinkScale;
        loaded[0].scale := SlideScale;
      }
      outcome := Advanced;
    }
  }
}
