/**
  The networking schema the injected script registers for the `#scriptable-media`
  template: which components (or component properties) are replicated, and, among them,
  which any participant may set without owning the entity. The three transforms carry
  the change trackers of `ChangeDetection` with their tolerances.
*/
module ReplicationSchema {
  import ChangeDetection

  /** A replicated component, or one property of a component. */
  datatype Networked =
    | Whole(component: string)
    | Property(component: string, property: string)
    | Tracked(component: string, factory: ChangeDetection.Factory)

  const Template: string := "#scriptable-media"

  /** `components`: replicated, written by the owner. */
  const Authorized: seq<Networked> := [
    Tracked("position", ChangeDetection.Factory(0.001)),
    Tracked("rotation", ChangeDetection.Factory(0.5)),
    Tracked("scale", ChangeDetection.Factory(0.001)),
    Whole("media-loader"),
    Property("media-video", "time"),
    Property("media-video", "videoPaused"),
    Property("media-pdf", "index"),
    Whole("pinnable")
  ]

  /** `nonAuthorizedComponents`: replicated, and writable by any participant. */
  const NonAuthorized: seq<Networked> := [
    Property("media-video", "time"),
    Property("media-video", "videoPaused"),
    Property("media-pager", "index"),
    Property("slide-counter", "index")
  ]

  /**
    The two lists are not disjoint: the video's time and paused flag are in both. The
    slide counter's index is only in the second, so a participant that does not own a
    slide may still have its index replicated.
  */
  lemma ListsShareVideoState()
    ensures (set c | c in Authorized && c in NonAuthorized)
         == {Property("media-video", "time"), Property("media-video", "videoPaused")}
    ensures Property("slide-counter", "index") in NonAuthorized
    ensures Property("slide-counter", "index") !in Authorized
  {
  }
}
