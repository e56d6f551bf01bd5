/**
  The slide deck: the global `slides` object of the injected script, the entities it
  loads into the scene, and the three deck operations `loadAssetsFromURLs`,
  `setupSlides` and `cleanUpSlides`.

  Entities are A-Frame elements, updated in place, so they are objects here. Only the
  parts of an entity that these operations touch are modelled: its `slide-counter`,
  `media-loader`, `networked` and `pinnable` settings, and the position and uniform
  scale of its `object3D`.
*/
module Slides {
  import opened Base
  import Decimal

  /** Prefix of every slide image, `backupImgSrc`. */
  const BackupImgSrc: string := "https://hubs-proxy.com/https://fabien.benetou.fr/pub/home/AWE_Berlin/"
  /** The networked template every slide is created from. */
  const SlideTemplate: string := "#scriptable-media"
  /** Scale of the slide on show, `slides.slideScale`. */
  const SlideScale: real := 5.0
  /** Scale of every other slide, `slides.linkScale`. */
  const LinkScale: real := 0.0001

  /** Settings of an entity's `media-loader` component. */
  datatype MediaLoader = MediaLoader(src: string, fitToBox: bool, resolve: bool)

  /** One entry of `slides.content`. */
  datatype SlideContent = SlideContent(title: string, url: string, img: string)

  class Entity {
    /** `index` of the entity's `slide-counter` component, if it has one. */
    var slideCounter: Option<int>
    var mediaLoader: Option<MediaLoader>
    /** Template of the entity's `networked` component, if it has one. */
    var networked: Option<string>
    var pinned: bool
    var position: Vec3
    /** The scale of `object3D`, whose three components `setScalar` keeps equal. */
    var scale: real

    /** `document.createElement("a-entity")`: no components, at the origin, unit scale. */
    constructor ()
      ensures slideCounter == None && mediaLoader == None && networked == None
      ensures !pinned && position == Vec3(0.0, 0.0, 0.0) && scale == 1.0
    {
      slideCounter, mediaLoader, networked := None, None, None;
      pinned := false;
      position := Vec3(0.0, 0.0, 0.0);
      scale := 1.0;
    }
  }

  /** `AFRAME.scenes[0]`: its child entities, in document order. */
  class Scene {
    var children: seq<Entity>

    constructor ()
      ensures children == []
    {
      children := [];
    }
  }

  predicate Distinct(s: seq<Entity>) {
    forall i, j | 0 <= i < j < |s| :: s[i] != s[j]
  }

  /** The image that slide `k` shows: the URL given for it is not used. */
  function SlideSrc(k: nat): string {
    BackupImgSrc + Decimal.NatToString(k + 1) + ".jpg"
  }

  /** Different slides show different images. */
  lemma SlideSrcInjective(a: nat, b: nat)
    requires SlideSrc(a) == SlideSrc(b)
    ensures a == b
  {
    var da, db := Decimal.NatToString(a + 1), Decimal.NatToString(b + 1);
    var p := |BackupImgSrc|;
    assert |da| == |db|;
    assert da == SlideSrc(a)[p..p + |da|];
    assert db == SlideSrc(b)[p..p + |db|];
    Decimal.NatToStringInjective(a + 1, b + 1);
  }

  /** Entity `e` is the `k`-th entity `loadAssetsFromURLs` creates. */
  ghost predicate IsSlideEntity(e: Entity, k: nat)
    reads e
  {
    && e.slideCounter == Some(k)
    && e.mediaLoader == Some(MediaLoader(SlideSrc(k), true, false))
    && e.networked == Some(SlideTemplate)
    && !e.pinned
  }

  /** Where `setupSlides` places slide `i`: each slide slightly behind the one before. */
  function SlidePosition(i: nat): (p: Vec3)
    ensures p.x == 1.0 && p.y == 2.0 && p.z <= 1.0
  {
    Vec3(1.0, 2.0, 1.0 - i as real * 0.01)
  }

  /** The uniform scales of the entities `s`, in order. */
  function Scales(s: seq<Entity>): (r: seq<real>)
    reads s
    ensures |r| == |s| && forall i | 0 <= i < |s| :: r[i] == s[i].scale
  {
    seq(|s|, i reads s requires 0 <= i < |s| => s[i].scale)
  }

  /** Scales right after `setupSlides` for `n` slides: the first on show, the others shrunk. */
  function SetupScales(n: nat): (r: seq<real>)
    ensures |r| == n
  {
    seq(n, i => if i == 0 then SlideScale else LinkScale)
  }

  /** Indices of the slides shown large. */
  function LargeSlides(scales: seq<real>): set<int> {
    set i | 0 <= i < |scales| && scales[i] == SlideScale
  }

  /** After `setupSlides` of a non-empty deck exactly one slide, the first, is large. */
  lemma SetupShowsOnlyFirst(n: nat)
    requires n > 0
    ensures LargeSlides(SetupScales(n)) == {0}
  {
    var s := SetupScales(n);
    assert s[0] == SlideScale;
    forall i | i in LargeSlides(s) ensures i == 0 {
      assert s[i] == if i == 0 then SlideScale else LinkScale;
    }
  }

  /** The entities of `s` that are not in `gone`, in their order in `s`. */
  function Without(s: seq<Entity>, gone: set<Entity>): (r: seq<Entity>)
    decreases |s|
  {
    if s == [] then []
    else (if s[0] in gone then [] else [s[0]]) + Without(s[1..], gone)
  }

  /** `Without(s, gone)` keeps exactly the entities of `s` that are not in `gone`. */
  lemma {:induction false} WithoutMembers(s: seq<Entity>, gone: set<Entity>, e: Entity)
    ensures e in Without(s, gone) <==> e in s && e !in gone
    decreases |s|
  {
    if s != [] {
      WithoutMembers(s[1..], gone, e);
      assert e in s <==> e == s[0] || e in s[1..];
    }
  }

  /** Removing in two rounds is removing once: the loop of `cleanUpSlides` may go one by one. */
  lemma {:induction false} WithoutTwice(s: seq<Entity>, a: set<Entity>, b: set<Entity>)
    ensures Without(Without(s, a), b) == Without(s, a + b)
    decreases |s|
  {
    if s != [] {
      WithoutTwice(s[1..], a, b);
      var rest := Without(s[1..], a);
      if s[0] in a {
        assert Without(s, a) == rest;
      } else {
        assert Without(s, a) == [s[0]] + rest;
        assert ([s[0]] + rest)[1..] == rest;
      }
    }
  }

  /** Removing nothing leaves the sequence as it is. */
  lemma {:induction false} WithoutNothing(s: seq<Entity>)
    ensures Without(s, {}) == s
    decreases |s|
  {
    if s != [] {
      WithoutNothing(s[1..]);
    }
  }

  function Members(s: seq<Entity>): set<Entity> {
    set e | e in s
  }

  /** Slide `i` of `loaded` is still a child of the scene when `cleanUpSlides` reaches it. */
  predicate AttachedAtTurn(children: seq<Entity>, loaded: seq<Entity>, i: nat)
    requires i < |loaded|
  {
    loaded[i] in Without(children, Members(loaded[..i]))
  }

  /**
    How many slides, counting from `from`, `cleanUpSlides` removes before it reaches one
    with no parent, whose `remove()` throws; all the rest when it reaches none.
  */
  function CleanedCount(children: seq<Entity>, loaded: seq<Entity>, from: nat): (k: nat)
    requires from <= |loaded|
    ensures from <= k <= |loaded|
    ensures forall j | from <= j < k :: AttachedAtTurn(children, loaded, j)
    ensures k < |loaded| ==> !AttachedAtTurn(children, loaded, k)
    decreases |loaded| - from
  {
    if from == |loaded| || !AttachedAtTurn(children, loaded, from) then from
    else CleanedCount(children, loaded, from + 1)
  }

  /** Distinct slides that are all still in the scene are all cleaned: nothing throws. */
  lemma CleanUpOfAttachedSlidesCompletes(children: seq<Entity>, loaded: seq<Entity>)
    requires Distinct(loaded)
    requires forall j | 0 <= j < |loaded| :: loaded[j] in children
    ensures CleanedCount(children, loaded, 0) == |loaded|
  {
    forall j | 0 <= j < |loaded| ensures AttachedAtTurn(children, loaded, j) {
      assert loaded[j] !in Members(loaded[..j]);
      WithoutMembers(children, Members(loaded[..j]), loaded[j]);
    }
  }

  /** `loadAssetsFromURLs(URLs)`: one new networked slide entity per URL, appended to the scene. */
  method LoadAssetsFromURLs(scene: Scene, urls: seq<string>) returns (elements: seq<Entity>)
    modifies scene`children
    ensures |elements| == |urls| && fresh(elements) && Distinct(elements)
    ensures forall k | 0 <= k < |elements| :: IsSlideEntity(elements[k], k)
    ensures forall k | 0 <= k < |elements| :: elements[k].position == Vec3(0.0, 0.0, 0.0)
    ensures scene.children == old(scene.children) + elements
  {
    elements := [];
    var i := 1;
    for n := 0 to |urls|
      invariant i == n + 1 && |elements| == n
      invariant fresh(elements) && Distinct(elements)
      invariant forall k | 0 <= k < n :: IsSlideEntity(elements[k], k)
      invariant forall k | 0 <= k < n :: elements[k].position == Vec3(0.0, 0.0, 0.0)
      invariant scene.children == old(scene.children) + elements
    {
      var el := new Entity();
      scene.children := scene.children + [el];
      el.slideCounter := Some(i - 1);
      el.mediaLoader := Some(MediaLoader(BackupImgSrc + Decimal.NatToString(i) + ".jpg", true, false));
      i := i + 1;
      el.networked := Some(SlideTemplate);
      elements := elements + [el];
    }
  }

  /** The global `slides` object. */
  class Deck {
    /** `slides.loaded`: the slide entities, in slide order. */
    var loaded: seq<Entity>
    /** `slides.currentSlide`. */
    var currentSlide: int
    /** `slides.content`: one entry per slide. */
    var content: seq<SlideContent>

    ghost predicate Valid()
      reads this
    {
      Distinct(loaded)
    }

    constructor (content: seq<SlideContent>)
      ensures Valid() && loaded == [] && currentSlide == 0 && this.content == content
    {
      loaded := [];
      currentSlide := 0;
      this.content := content;
    }

    /**
      `setupSlides()`: loads one entity per content entry, lines them up and shows the
      first one large. On an empty deck `loaded[0]` is undefined and the last statement
      throws a TypeError, after every other change is made: `ok` is false then.
    */
    method SetupSlides(scene: Scene) returns (ok: bool)
      modifies this, scene`children
      ensures Valid() && content == old(content) && currentSlide == 0
      ensures ok <==> |content| > 0
      ensures |loaded| == |content| && fresh(loaded)
      ensures forall k | 0 <= k < |loaded| :: IsSlideEntity(loaded[k], k)
      ensures forall k | 0 <= k < |loaded| :: loaded[k].position == SlidePosition(k)
      ensures Scales(loaded) == SetupScales(|loaded|)
      ensures scene.children == old(scene.children) + loaded
    {
      currentSlide := 0;
      var entries := content;
      var imgs := seq(|entries|, i requires 0 <= i < |entries| => entries[i].img);
      var els := LoadAssetsFromURLs(scene, imgs);
      loaded := els;
      for i := 0 to |els|
        modifies els
        invariant forall k | 0 <= k < |els| :: IsSlideEntity(els[k], k)
        invariant forall k | 0 <= k < i :: els[k].position == SlidePosition(k) && els[k].scale == LinkScale
      {
        els[i].position := SlidePosition(i);
        els[i].scale := LinkScale;
      }
      if currentSlide < |loaded| {
        loaded[currentSlide].scale := SlideScale;
        ok := true;
      } else {
        ok := false;
      }
    }

    /**
      `cleanUpSlides()`: unpins each loaded slide and takes it out of the scene, then
      forgets the list. A slide that is no longer a child of the scene (removed some other
      way, say by `removeAllMedia`) has no parent, so its `remove()` throws a TypeError:
      the slides before it are cleaned, it is unpinned, and the list is kept; `ok` is
      false then.
    */
    method CleanUpSlides(scene: Scene) returns (ok: bool)
      requires Valid()
      modifies this`loaded, loaded`pinned, scene`children
      ensures Valid()
      ensures var k := CleanedCount(old(scene.children), old(loaded), 0);
        && (ok <==> k == |old(loaded)|)
        && (forall j | 0 <= j < |old(loaded)| && j <= k :: !old(loaded)[j].pinned)
        && (forall j | k < j < |old(loaded)| :: old(loaded)[j].pinned == old(loaded[j].pinned))
        && scene.children == Without(old(scene.children), Members(old(loaded)[..k]))
        && loaded == if ok then [] else old(loaded)
    {
      ghost var children := scene.children;
      ghost var k := CleanedCount(children, loaded, 0);
      WithoutNothing(scene.children);
      assert Members(loaded[..0]) == {};
      var i := 0;
      while i < |loaded|
        modifies loaded`pinned, scene`children
        invariant i <= |loaded|
        invariant forall j | 0 <= j < i :: AttachedAtTurn(children, loaded, j)
        invariant forall j | 0 <= j < i :: !loaded[j].pinned
        invariant forall j | i <= j < |loaded| :: loaded[j].pinned == old(loaded[j].pinned)
        invariant scene.children == Without(children, Members(loaded[..i]))
      {
        var s := loaded[i];
        s.pinned := false;
        if s !in scene.children {
          assert !AttachedAtTurn(children, loaded, i);
          return false;
        }
        WithoutTwice(children, Members(loaded[..i]), {s});
        assert Members(loaded[..i + 1]) == Members(loaded[..i]) + {s};
        scene.children := Without(scene.children, {s});
        i := i + 1;
      }
      assert loaded[..|loaded|] == loaded;
      loaded := [];
      ok := true;
    }
  }
}
