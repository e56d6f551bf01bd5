# Scriptable slide deck for Hubs: a Dafny model

The "Inject the Script" button of the Hubs settings menu writes a script into the page.
That script sets up a shared slide deck. Each slide is a networked entity built from the
`#scriptable-media` template. Clicking the slide on show hands the show to the next slide,
but only for a participant who owns the entity or can take ownership of it. This project
models the parts of that script that hold logic, and proves what they guarantee:

- `ChangeDetection` covers the change tracker built by `vectorRequiresUpdate(epsilon)`. It
  is a hysteresis filter that decides whether a new position, rotation or scale sample is
  sent to the other participants. The `Tracker` class holds the closure's captured `prev`.
  `Step`, `Run` and `Baseline` are its specification on sample streams.
- `ReplicationSchema` holds the networking schema registered for the template, as constants.
- `Slides` covers the global `slides` deck object (`Deck`), its entities (`Entity`), the
  scene (`Scene`), and the operations `loadAssetsFromURLs`, `setupSlides` and `cleanUpSlides`.
- `SlideCounter` covers the `slide-counter` component (`Counter`): the `init` promise
  continuation, `update` and `onNext`. `NextSlide`, `ScalesAfterNext` and `Tour` are the
  specification of the slide transition.
- `Injection` covers the guard that injects the script at most once per document.
- `Decimal` gives the decimal text JavaScript writes when it concatenates a non-negative
  integer below 10^21 to a string.
- `Base` holds `Option` and `Vec3`.

The foreign library calls become parameters. `NAF.utils.almostEqualVec3` is the function
parameter `eq`, and nothing is assumed about it. Where a lemma needs it to be reflexive,
that is a stated hypothesis. The answers of `NAF.utils.isMine` and
`NAF.utils.takeOwnership` are the boolean parameters of `Counter.OnNext`.

## Behaviour of the code worth knowing

- `onNext` shrinks the clicked entity's own slide. It uses the component's own
  `currentSlide`, which is the entity's `data.index`, its position in the deck. It does not
  use a shared "active" index, and it never advances `currentSlide`. So exactly one slide
  stays large only when the slide clicked is the one on show, or the one just before it
  (`OneLargeKeptIff`). Clicking the slide on show repeatedly shows the slides in order, with
  wrap-around (`TourShowsInOrder`).
- The schema's owner-only list and its "any participant" list are not disjoint. The video's
  `time` and `videoPaused` appear in both (`ListsShareVideoState`).
- `cleanUpSlides` unpins and removes the slides but releases no ownership. A slide that has
  already left the scene makes its `remove()` throw a TypeError, and the list is then kept.
- An empty deck is not rejected up front. `setupSlides` loads nothing and then fails with a
  TypeError on `loaded[0]`. `onNext` with an index outside the deck fails the same way.
  Both are modelled as error results.

## Model

| member | source | states |
|---|---|---|
| `ChangeDetection.Step` | src/react-components/settings-menu.js:300-310 | a sample emits exactly when there is no baseline yet or it is not almost equal to the baseline; an emitted sample becomes the baseline, a suppressed one leaves it unchanged |
| `ChangeDetection.Tracker.constructor` | src/react-components/settings-menu.js:296-298 | each call of the factory starts a tracker of its own, with the factory's epsilon and no baseline |
| `ChangeDetection.Tracker.RequiresUpdate` | src/react-components/settings-menu.js:300-310 | the first sample returns true and becomes `prev`; a later one returns true iff `almostEqualVec3(prev, curr, epsilon)` is false, and then replaces `prev`; otherwise `prev` is unchanged |
| `ChangeDetection.RunAt` | src/react-components/settings-menu.js:300-310 | over a stream, the answer to sample i is the one-step decision against the baseline left by the samples before it, and that decision's baseline is the one the first i+1 samples leave |
| `ChangeDetection.SuppressedSampleIsNearBaseline` | src/react-components/settings-menu.js:304-309 | a sample that is not sent was compared with an existing baseline, was almost equal to it, and left it in place |
| `ChangeDetection.EmittedSampleBecomesBaseline` | src/react-components/settings-menu.js:301-306 | a sample that is sent becomes the baseline |
| `ChangeDetection.SilentRunKeepsBaseline` | src/react-components/settings-menu.js:304-309 | the baseline moves only on emission: after any stretch of suppressed samples it is the one before the stretch, so sub-epsilon drift is never absorbed |
| `ChangeDetection.ConstantStreamEmitsOnce` | src/react-components/settings-menu.js:298-309 | a fresh tracker fed a constant stream sends the first sample and none after it, when `almostEqualVec3` holds of a vector and itself |
| `ReplicationSchema.ListsShareVideoState` | src/react-components/settings-menu.js:316-374 | the owner-only and any-participant lists share exactly the video's time and paused flag; the slide counter's index is only in the second list |
| `Decimal.NatToString` | src/react-components/settings-menu.js:506 | the text of a number is a non-empty string of decimal digits with no leading zero |
| `Decimal.DigitsValueOfNatToString` | src/react-components/settings-menu.js:506 | the decimal text of a slide number reads back as that number |
| `Decimal.NatToStringInjective` | src/react-components/settings-menu.js:506 | different slide numbers give different texts |
| `Slides.SlideSrcInjective` | src/react-components/settings-menu.js:499-506 | different slides load different images: the image URL of slide k determines k |
| `Slides.Entity.constructor` | src/react-components/settings-menu.js:503 | a new entity has no slide-counter, media-loader or networked component, is not pinned, sits at the origin and has unit scale |
| `Slides.LoadAssetsFromURLs` | src/react-components/settings-menu.js:498-513 | one new, distinct entity per URL, in order and appended to the scene; entity k has slide-counter index k, media src `backupImgSrc + (k+1) + ".jpg"` whatever URL was given, fitToBox and not resolve, and template `#scriptable-media` |
| `Slides.Deck.constructor` | src/react-components/settings-menu.js:460-470 | the `slides` object starts with no loaded slides, `currentSlide` 0 and the given content |
| `Slides.Deck.SetupSlides` | src/react-components/settings-menu.js:517-531 | `currentSlide` is 0; one slide per content entry, each placed at x 1, y 2, z 1 - i/100; slide 0 has the slide scale and every other the link scale; it fails (TypeError) exactly when the content is empty |
| `Slides.SetupShowsOnlyFirst` | src/react-components/settings-menu.js:526-530 | after setup of a non-empty deck exactly one slide, slide 0, is large |
| `Slides.Deck.CleanUpSlides` | src/react-components/settings-menu.js:533-536 | with k the slides reached before one that is no longer in the scene: those k are unpinned and taken out of the scene, the detached one is unpinned too, the slides after it keep their pinned flag, and every other scene child stays in order; `ok` holds iff no slide was detached, and then `loaded` is emptied, otherwise it is kept (TypeError from `remove()`) |
| `Slides.CleanedCount` | src/react-components/settings-menu.js:534 | counts the slides the loop removes: each of them is still in the scene when reached, and the one after them, if any, is not |
| `Slides.CleanUpOfAttachedSlidesCompletes` | src/react-components/settings-menu.js:533-536 | when the loaded slides are distinct and all still in the scene, clean-up reaches every one and succeeds |
| `Slides.WithoutMembers` | src/react-components/settings-menu.js:534 | what the removal loop leaves in the scene is exactly the children that were not slides |
| `Slides.WithoutTwice` | src/react-components/settings-menu.js:534-535 | removing slides one at a time equals removing them all at once |
| `SlideCounter.NextSlideIsModularIncrement` | src/react-components/settings-menu.js:426-434 | for an index in the deck, the next slide is `(k+1) mod max`, in the deck, and the last slide wraps to 0 |
| `SlideCounter.NextSlide` | src/react-components/settings-menu.js:426-433 | the next slide is the successor or slide 0, and lies in the deck when the clicked index does |
| `SlideCounter.ScalesAfterNext` | src/react-components/settings-menu.js:428-433 | the scales keep their length and the successor of the clicked slide ends with the slide scale |
| `SlideCounter.ScalesAfterNextAt` | src/react-components/settings-menu.js:426-434 | `onNext` on slide k enlarges slide `(k+1) mod max`, shrinks slide k (unless it is its own successor), and leaves every other slide's scale alone |
| `SlideCounter.LargeAfterNext` | src/react-components/settings-menu.js:426-434 | the set of large slides loses the clicked slide and gains its successor |
| `SlideCounter.OneLargeKeptIff` | src/react-components/settings-menu.js:421-434 | from exactly one large slide, a click keeps exactly one large iff the clicked slide is the one on show or its successor is; clicking the one on show shows its successor |
| `SlideCounter.TourShowsInOrder` | src/react-components/settings-menu.js:421-434 | clicking the slide on show t times from one large slide s shows slide `(s+t) mod n`, always the only large one |
| `SlideCounter.ThreeSlideTour` | src/react-components/settings-menu.js:421-434 | three slides, three clicks on the slide on show: slides 1, 2, 0 come up in turn, each the only large one |
| `SlideCounter.Decide` | src/react-components/settings-menu.js:422-435 | nothing happens iff the entity is resolved, not ours and ownership is refused; the slides move on iff it is resolved, owned or taken over, and the index is in the deck; otherwise (unresolved, or index outside the deck) a TypeError |
| `SlideCounter.Counter.constructor` | src/react-components/settings-menu.js:388-392 | a new component is not yet resolved and shows its own index |
| `SlideCounter.Counter.Resolve` | src/react-components/settings-menu.js:394-405 | once the networked entity resolves, the component holds the deck, its size as `max`, and its own index as `currentSlide` |
| `SlideCounter.Counter.Update` | src/react-components/settings-menu.js:410-419 | `update` sets `currentSlide` to `data.index` and changes nothing else |
| `SlideCounter.Counter.OnNext` | src/react-components/settings-menu.js:421-435 | networked, not owned and ownership refused: no scale changes; otherwise, with an index in the deck, the scales become `ScalesAfterNext`; `currentSlide` never changes; an unresolved component or an index outside the deck fails with a TypeError and changes nothing |
| `Injection.InjectTwiceIsOnce` | src/react-components/settings-menu.js:581-589 | a second click adds nothing, whatever code it carries |
| `Injection.InjectLeavesOneScript` | src/react-components/settings-menu.js:581-585 | when there was at most one `injectedcode` element before, a click keeps the existing elements in place and leaves exactly one |
| `Injection.Document.InjectScript` | src/react-components/settings-menu.js:581-589 | the script is added iff no element with id `injectedcode` exists, and then after every element already listed |
| `Injection.Injected` | src/react-components/settings-menu.js:581-585 | after a click an `injectedcode` element exists, the earlier elements are kept in place, and one element was added iff there was none with that id |
| `Injection.Document.constructor` | src/react-components/settings-menu.js:581 | a document holds the elements it is given |

## Left out

- React rendering, the menu's visibility flags, `unexpand` and the toggles are UI with no logic to verify.
- The template built by `inject_scriptable_Media` and the hover-menu markup (`mediaMenuText`) only construct DOM.
- The scene-loaded dispatch of the injected script only schedules that DOM construction.
- `removeAllMedia` is left out. It is asynchronous, walks the whole DOM, and selects entities with a regular expression.
- The networking library's `isMine`, `takeOwnership`, `almostEqualVec3` and `getNetworkedEntity` are not part of this model. Their answers are parameters, and the promise of `getNetworkedEntity` is the separate call `Counter.Resolve`.
- Ownership arbitration, mutual exclusion between participants and replication itself happen inside the networking library, so they are not modelled.
- `Counter.OnNext`: requires that the deck was not reloaded after the component resolved. After a reload, the stale `max` could make `onNext` scale one slide and then fail; that case is not modelled.
- The document is one flat list of elements: the script goes into `document.head` (or `documentElement`), so in document order it is not the last element; only presence and uniqueness of the id are modelled.
- `Decimal.NatToString`: matches JavaScript's text only below 10^21, where JavaScript switches to exponent notation; slide numbers stay far below that.
- `ReplicationSchema.Authorized` and `ReplicationSchema.NonAuthorized` are constants, not operations; what they hold is stated by `ReplicationSchema.ListsShareVideoState`.
- Floating point is not modelled: epsilons, scales and z offsets are exact reals (`0.0001`, `1 - i * 0.01`).
- Entities hold only the fields these operations touch. The three scale components are one value, because `setScalar` keeps them equal.
- The `remove()` listener cleanup of the component and the `console.log` calls have no effect on the modelled state.
- `Slides.Deck.SetupSlides` takes `slides.content` as the deck's constructor argument instead of the built-in list of fourteen entries. Only the number of entries matters, because their URLs are ignored.
