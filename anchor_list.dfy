/**
  A controller's `_anchorObjects` list: the anchor game objects in the order
  they were placed, each with its `activeSelf` flag. The three controllers
  walk it with `foreach ... SetActive(...)`; these are those walks.
 */
module AnchorList {
  import opened ArTypes

  /** The identities of the listed game objects, in list order. */
  function Ids(anchors: seq<AnchorObject>): (ids: seq<AnchorId>)
    ensures |ids| == |anchors|
    ensures forall i :: 0 <= i < |anchors| ==> ids[i] == anchors[i].id
    decreases |anchors|
  {
    if anchors == [] then [] else [anchors[0].id] + Ids(anchors[1..])
  }

  /** `_anchorObjects.Contains(anchor.gameObject)`. */
  predicate Contains(anchors: seq<AnchorObject>, id: AnchorId) {
    id in Ids(anchors)
  }

  /** `_anchorObjects.Last().Equals(anchor.gameObject)` on a non-empty list. */
  predicate IsLast(anchors: seq<AnchorObject>, id: AnchorId) {
    |anchors| > 0 && anchors[|anchors| - 1].id == id
  }

  lemma LastIsContained(anchors: seq<AnchorObject>, id: AnchorId)
    requires IsLast(anchors, id)
    ensures Contains(anchors, id)
  {
    assert Ids(anchors)[|anchors| - 1] == id;
  }

  /** `go.SetActive(active)` on the listed object `id`; every other entry is left alone. */
  function SetActive(anchors: seq<AnchorObject>, id: AnchorId, active: bool): (r: seq<AnchorObject>)
    ensures |r| == |anchors|
    ensures forall i :: 0 <= i < |anchors| ==>
              r[i] == if anchors[i].id == id then anchors[i].(active := active) else anchors[i]
    decreases |anchors|
  {
    if anchors == [] then []
    else [if anchors[0].id == id then anchors[0].(active := active) else anchors[0]]
         + SetActive(anchors[1..], id, active)
  }

  /** The list after `foreach (var go in _anchorObjects) go.SetActive(false)`. */
  function Deactivated(anchors: seq<AnchorObject>): (r: seq<AnchorObject>)
    ensures |r| == |anchors|
    ensures forall i :: 0 <= i < |anchors| ==> r[i] == anchors[i].(active := false)
    decreases |anchors|
  {
    if anchors == [] then [] else [anchors[0].(active := false)] + Deactivated(anchors[1..])
  }

  /** A terrain state after which an anchor may be shown again: `None` or `Success`. */
  predicate Settled(state: TerrainAnchorState) {
    state == TerrainAnchorState.None || state == Success
  }

  /**
    The list after the regain loop: objects whose terrain state is `None` or
    `Success` are activated, the others (still resolving, or failed) are skipped.
   */
  function Reactivated(anchors: seq<AnchorObject>, terrain: AnchorId -> TerrainAnchorState): (r: seq<AnchorObject>)
    ensures |r| == |anchors|
    ensures forall i :: 0 <= i < |anchors| ==>
              r[i] == if Settled(terrain(anchors[i].id)) then anchors[i].(active := true) else anchors[i]
    decreases |anchors|
  {
    if anchors == [] then []
    else [if Settled(terrain(anchors[0].id)) then anchors[0].(active := true) else anchors[0]]
         + Reactivated(anchors[1..], terrain)
  }

  /** Deactivating keeps every object, in order, and leaves none active. */
  lemma DeactivatedHidesAll(anchors: seq<AnchorObject>)
    ensures Ids(Deactivated(anchors)) == Ids(anchors)
    ensures forall a :: a in Deactivated(anchors) ==> !a.active
  {
  }

  /** Deactivating twice is deactivating once. */
  lemma DeactivatedIdempotent(anchors: seq<AnchorObject>)
    ensures Deactivated(Deactivated(anchors)) == Deactivated(anchors)
  {
  }

  /** After the regain loop an object is active exactly when it was, or its terrain state is settled. */
  lemma ReactivatedShowsSettled(anchors: seq<AnchorObject>, terrain: AnchorId -> TerrainAnchorState)
    ensures Ids(Reactivated(anchors, terrain)) == Ids(anchors)
    ensures forall i :: 0 <= i < |anchors| ==>
              Reactivated(anchors, terrain)[i].active == (anchors[i].active || Settled(terrain(anchors[i].id)))
  {
  }

  /** Setting a flag keeps every object in place. */
  lemma SetActiveKeepsIds(anchors: seq<AnchorObject>, id: AnchorId, active: bool)
    ensures Ids(SetActive(anchors, id, active)) == Ids(anchors)
  {
  }

  /** Appending an object appends its identity. */
  lemma IdsAppend(anchors: seq<AnchorObject>, a: AnchorObject)
    ensures Ids(anchors + [a]) == Ids(anchors) + [a.id]
  {
  }

  /** The lost-localization loop over `_anchorObjects`. */
  method DeactivateAll(anchors: seq<AnchorObject>) returns (r: seq<AnchorObject>)
    ensures r == Deactivated(anchors)
  {
    r := anchors;
    var i := 0;
    while i < |r|
      invariant 0 <= i <= |r| == |anchors|
      invariant forall k :: 0 <= k < i ==> r[k] == anchors[k].(active := false)
      invariant forall k :: i <= k < |r| ==> r[k] == anchors[k]
    {
      r := r[i := r[i].(active := false)];
      i := i + 1;
    }
  }

  /** The regained-localization loop over `_anchorObjects`. */
  method ReactivateSettled(anchors: seq<AnchorObject>, terrain: AnchorId -> TerrainAnchorState) returns (r: seq<AnchorObject>)
    ensures r == Reactivated(anchors, terrain)
  {
    r := anchors;
    var i := 0;
    while i < |r|
      invariant 0 <= i <= |r| == |anchors|
      invariant forall k :: 0 <= k < i ==>
                  r[k] == if Settled(terrain(anchors[k].id)) then anchors[k].(active := true) else anchors[k]
      invariant forall k :: i <= k < |r| ==> r[k] == anchors[k]
    {
      if Settled(terrain(r[i].id)) {
        r := r[i := r[i].(active := true)];
      }
      i := i + 1;
    }
  }
}
