/**
  The guard around the "Inject the Script" button: the script element is added to the
  document only when no element with id `injectedcode` is there yet, so however often
  the button is clicked the code is injected at most once.
*/
module Injection {

  /** Id of the script element the button adds. */
  const InjectedId: string := "injectedcode"

  /** An element of the document, as far as the guard looks at it. */
  datatype Element = Element(tag: string, id: string, text: string)

  /** `document.getElementById(id) != null`. */
  predicate HasId(elements: seq<Element>, id: string) {
    exists i | 0 <= i < |elements| :: elements[i].id == id
  }

  /** How many elements carry the id `id`. */
  function CountId(elements: seq<Element>, id: string): nat
    decreases |elements|
  {
    if elements == [] then 0
    else (if elements[0].id == id then 1 else 0) + CountId(elements[1..], id)
  }

  lemma {:induction false} CountIdAppend(elements: seq<Element>, e: Element, id: string)
    ensures CountId(elements + [e], id) == CountId(elements, id) + (if e.id == id then 1 else 0)
    decreases |elements|
  {
    if elements != [] {
      assert (elements + [e])[1..] == elements[1..] + [e];
      CountIdAppend(elements[1..], e, id);
    }
  }

  /** An id is present exactly when some element carries it. */
  lemma {:induction false} HasIdIffCounted(elements: seq<Element>, id: string)
    ensures HasId(elements, id) <==> CountId(elements, id) > 0
    decreases |elements|
  {
    if elements != [] {
      HasIdIffCounted(elements[1..], id);
      if HasId(elements[1..], id) {
        var i :| 0 <= i < |elements| - 1 && elements[1..][i].id == id;
        assert elements[i + 1].id == id;
      }
      if HasId(elements, id) && elements[0].id != id {
        var i :| 0 <= i < |elements| && elements[i].id == id;
        assert elements[1..][i - 1].id == id;
      }
    }
  }

  /** The document after one click of the button, with script text `code`. */
  function Injected(elements: seq<Element>, code: string): (r: seq<Element>)
    ensures HasId(r, InjectedId)
    ensures |elements| <= |r| <= |elements| + 1 && r[..|elements|] == elements
    ensures |r| == |elements| + 1 <==> !HasId(elements, InjectedId)
  {
    if HasId(elements, InjectedId) then elements
    else
      var r := elements + [Element("script", InjectedId, code)];
      assert r[|elements|].id == InjectedId;
      r
  }

  /** A second click adds nothing, whatever code it carries. */
  lemma InjectTwiceIsOnce(elements: seq<Element>, first: string, second: string)
    ensures Injected(Injected(elements, first), second) == Injected(elements, first)
  {
    var once := Injected(elements, first);
    if !HasId(elements, InjectedId) {
      assert once[|elements|].id == InjectedId;
    }
  }

  /**
    Clicking never removes or reorders what was there, and leaves exactly one element with
    the id if there was at most one before: the code is in the document exactly once.
  */
  lemma InjectLeavesOneScript(elements: seq<Element>, code: string)
    requires CountId(elements, InjectedId) <= 1
    ensures Injected(elements, code)[..|elements|] == elements
    ensures CountId(Injected(elements, code), InjectedId) == 1
  {
    HasIdIffCounted(elements, InjectedId);
    CountIdAppend(elements, Element("script", InjectedId, code), InjectedId);
  }

  /** The page's `document`, as the flat list of its elements. */
  class Document {
    var elements: seq<Element>

    constructor (elements: seq<Element>)
      ensures this.elements == elements
    {
      this.elements := elements;
    }

    /** The button's click handler, with `actualCode` as `code`. */
    method InjectScript(code: string) returns (injected: bool)
      modifies this
      ensures injected <==> !HasId(old(elements), InjectedId)
      ensures elements == Injected(old(elements), code)
    {
      if !HasId(elements, InjectedId) {
        var script := Element("script", InjectedId, code);
        elements := elements + [script];
        injected := true;
      } else {
        injected := false;
      }
    }
  }
}
