/**
  The `CheckTerrainAnchorState` coroutine, which all three controllers start
  for every anchor they place. Each resumption (the start, then once after every
  0.1 s wait) is one `Step`: it reads the anchor's terrain state and the
  controller's anchor list, and reports what the coroutine did in that
  resumption. The controllers apply the reported effect to their own state.
 */
module TerrainPoller {
  import opened ArTypes
  import opened AnchorList

  /** The saturation bound of `retry`. */
  const RetryCap: nat := 100

  /**
    A running or finished coroutine: the anchor it watches, its `retry`
    counter, and whether the controller has called `Destroy` on the anchor's
    `GameObject` since.
   */
  datatype Poller = Poller(anchor: AnchorId, retry: nat, running: bool, destroyed: bool)

  /** `StartCoroutine(CheckTerrainAnchorState(anchor))`, before its first resumption. */
  function Start(anchor: AnchorId): (p: Poller)
    ensures p.anchor == anchor && p.retry == 0 && p.running && !p.destroyed
  {
    Poller(anchor, 0, true, false)
  }

  /**
    `Destroy` of every listed anchor object followed by `Clear()`, as the
    clear buttons and `OnDisable` do: each coroutine watches an anchor that
    was listed when it started, and the list loses anchors only here, so every
    coroutine's anchor is destroyed by now.
   */
  function DestroyAnchors(ps: seq<Poller>): (r: seq<Poller>)
    ensures |r| == |ps|
    ensures forall i :: 0 <= i < |r| ==> r[i] == ps[i].(destroyed := true)
    decreases |ps|
  {
    if ps == [] then [] else [ps[0].(destroyed := true)] + DestroyAnchors(ps[1..])
  }

  /**
    Whether the anchor's `GameObject` no longer exists at a resumption: Unity
    carries out `Destroy` at the end of the frame, so a resumption in the
    frame of the call still finds the object.
   */
  predicate Gone(p: Poller, frameEnded: bool) {
    p.destroyed && frameEnded
  }

  /** Whether the anchor is the last listed one when the coroutine looks at `_anchorObjects.Last()`. */
  datatype LastCheck = NotLast | IsLastAnchor | EmptyList

  /**
    What one resumption does:
    - `Idle`: the coroutine had already ended;
    - `Cancelled`: the anchor is still resolving but the list is empty or no
      longer holds it, so it exits;
    - `Dangling`: it read `anchor.gameObject` of a destroyed anchor, which
      throws a `MissingReferenceException`;
    - `Waiting(advise)`: still resolving; `advise` is whether it writes the
      resolving-timeout message before waiting again;
    - `Finished(active, last)`: resolution ended; the anchor is set to `active`;
      `last` says whether its state is reported (`IsLastAnchor`) or whether
      `Last()` throws on an empty list (`EmptyList`).
   */
  datatype Effect = Idle | Cancelled | Dangling | Waiting(advise: bool) | Finished(active: bool, last: LastCheck)

  datatype Polled = Polled(poller: Poller, effect: Effect)

  function LastOf(anchors: seq<AnchorObject>, id: AnchorId): LastCheck {
    if |anchors| == 0 then EmptyList else if IsLast(anchors, id) then IsLastAnchor else NotLast
  }

  /**
    One resumption of the coroutine, given the anchor's state, the
    controller's list and flag, and whether the frame of any `Destroy` of the
    anchor has ended. The empty-list test comes first and never touches the
    anchor; the `Contains` test and the final `SetActive` read
    `anchor.gameObject`, which throws once the anchor is gone.
   */
  function Step(p: Poller, state: TerrainAnchorState, anchors: seq<AnchorObject>, isLocalizing: bool, frameEnded: bool): (r: Polled)
    ensures r.poller.anchor == p.anchor && r.poller.destroyed == p.destroyed
    ensures !p.running ==> r == Polled(p, Idle)
    ensures r.effect.Cancelled? <==> p.running && state == TaskInProgress
                                      && (|anchors| == 0 || (!Gone(p, frameEnded) && !Contains(anchors, p.anchor)))
    ensures r.effect.Dangling? <==> p.running && Gone(p, frameEnded) && (state != TaskInProgress || |anchors| > 0)
    ensures r.effect.Waiting? <==> p.running && state == TaskInProgress && !Gone(p, frameEnded) && Contains(anchors, p.anchor)
    ensures r.effect.Finished? <==> p.running && state != TaskInProgress && !Gone(p, frameEnded)
    ensures r.poller.running <==> r.effect.Waiting?
    ensures r.effect.Waiting? ==> r.poller.retry == if p.retry < RetryCap then p.retry + 1 else RetryCap
    ensures r.effect.Waiting? ==> (r.effect.advise <==> p.retry == RetryCap && IsLast(anchors, p.anchor))
    ensures r.effect.Finished? ==> r.effect.active == (!isLocalizing && state == Success)
    ensures r.effect.Finished? ==> r.effect.last == LastOf(anchors, p.anchor)
  {
    if !p.running then Polled(p, Idle)
    else if state == TaskInProgress then
      if |anchors| == 0 then Polled(p.(running := false), Cancelled)
      else if Gone(p, frameEnded) then Polled(p.(running := false), Dangling)
      else if !Contains(anchors, p.anchor) then Polled(p.(running := false), Cancelled)
      else
        var advise := p.retry == RetryCap && IsLast(anchors, p.anchor);
        Polled(p.(retry := if p.retry + 1 < RetryCap then p.retry + 1 else RetryCap), Waiting(advise))
    else if Gone(p, frameEnded) then Polled(p.(running := false), Dangling)
    else Polled(p.(running := false), Finished(!isLocalizing && state == Success, LastOf(anchors, p.anchor)))
  }

  /**
    A resumption ends in an exception exactly when it touches a destroyed
    anchor, or when it reaches `_anchorObjects.Last()` on an empty list.
   */
  function PollOutcome(e: Effect): (o: Outcome)
    ensures o.Faulted? <==> e.Dangling? || (e.Finished? && e.last == EmptyList)
    ensures e.Dangling? ==> o == Faulted(DestroyedAnchor)
    ensures e.Finished? && e.last == EmptyList ==> o == Faulted(EmptyAnchorList)
  {
    if e.Dangling? then Faulted(DestroyedAnchor)
    else if e.Finished? && e.last == EmptyList then Faulted(EmptyAnchorList)
    else Completed
  }

  /** The first resumption, run by `StartCoroutine` right after the anchor was listed, cannot throw. */
  lemma StartOnListedAnchorCompletes(id: AnchorId, state: TerrainAnchorState, anchors: seq<AnchorObject>, isLocalizing: bool)
    requires Contains(anchors, id)
    ensures PollOutcome(Step(Start(id), state, anchors, isLocalizing, false).effect) == Completed
  {
  }

  /** The anchor list after a resumption: a finished one sets its anchor's flag, any other leaves the list alone. */
  function PolledAnchors(anchors: seq<AnchorObject>, id: AnchorId, e: Effect): (r: seq<AnchorObject>)
    ensures Ids(r) == Ids(anchors)
    ensures e.Finished? ==> r == SetActive(anchors, id, e.active)
    ensures !e.Finished? ==> r == anchors
  {
    if e.Finished? then
      SetActiveKeepsIds(anchors, id, e.active);
      SetActive(anchors, id, e.active)
    else anchors
  }

  /**
    The status text after a resumption: the resolving-timeout advice, or the
    final terrain state when the anchor is the last listed one; otherwise the
    text is left as it was.
   */
  function PolledMessage(m: Message, state: TerrainAnchorState, e: Effect): (r: Message)
    ensures r != m ==> (e == Waiting(true) && r == ResolvingTimeout)
                       || (e.Finished? && e.last == IsLastAnchor && r == TerrainStateText(state))
  {
    match e
    case Waiting(advise) => if advise then ResolvingTimeout else m
    case Finished(_, last) => if last == IsLastAnchor then TerrainStateText(state) else m
    case _ => m
  }

  /** What a resumption observes. */
  datatype Observation = Observation(state: TerrainAnchorState, anchors: seq<AnchorObject>, isLocalizing: bool, frameEnded: bool)

  /** The poller after a run of resumptions. */
  function Run(p: Poller, obs: seq<Observation>): Poller
    decreases |obs|
  {
    if obs == [] then p
    else Run(Step(p, obs[0].state, obs[0].anchors, obs[0].isLocalizing, obs[0].frameEnded).poller, obs[1..])
  }

  /** The effects of a run of resumptions, one per observation. */
  function Effects(p: Poller, obs: seq<Observation>): (es: seq<Effect>)
    ensures |es| == |obs|
    decreases |obs|
  {
    if obs == [] then []
    else
      var r := Step(p, obs[0].state, obs[0].anchors, obs[0].isLocalizing, obs[0].frameEnded);
      [r.effect] + Effects(r.poller, obs[1..])
  }

  /** A resumption in which the anchor is still resolving, still listed and not destroyed. */
  predicate StillResolving(p: Poller, o: Observation) {
    o.state == TaskInProgress && Contains(o.anchors, p.anchor) && !Gone(p, o.frameEnded)
  }

  /** `retry` never exceeds the cap. */
  lemma {:induction false} RetryStaysCapped(p: Poller, obs: seq<Observation>)
    requires p.retry <= RetryCap
    ensures Run(p, obs).retry <= RetryCap
    ensures Run(p, obs).anchor == p.anchor && Run(p, obs).destroyed == p.destroyed
    decreases |obs|
  {
    if obs != [] {
      RetryStaysCapped(Step(p, obs[0].state, obs[0].anchors, obs[0].isLocalizing, obs[0].frameEnded).poller, obs[1..]);
    }
  }

  /** While the anchor stays listed and resolving, each resumption adds one to `retry` up to the cap. */
  lemma {:induction false} RetrySaturates(p: Poller, obs: seq<Observation>)
    requires p.running && p.retry <= RetryCap
    requires forall i :: 0 <= i < |obs| ==> StillResolving(p, obs[i])
    ensures Run(p, obs).running
    ensures Run(p, obs).retry == if p.retry + |obs| < RetryCap then p.retry + |obs| else RetryCap
    decreases |obs|
  {
    if obs != [] {
      var q := Step(p, obs[0].state, obs[0].anchors, obs[0].isLocalizing, obs[0].frameEnded).poller;
      assert StillResolving(p, obs[0]);
      assert forall i :: 0 <= i < |obs[1..]| ==> StillResolving(q, obs[1..][i]) by {
        forall i | 0 <= i < |obs[1..]| ensures StillResolving(q, obs[1..][i]) {
          assert obs[1..][i] == obs[i + 1];
          assert StillResolving(p, obs[i + 1]);
        }
      }
      RetrySaturates(q, obs[1..]);
    }
  }

  /** Once `retry` is at the cap, every further listed, resolving resumption rewrites the timeout message exactly when the anchor is last. */
  lemma AdvisesAtCap(p: Poller, o: Observation)
    requires p.running && p.retry == RetryCap && StillResolving(p, o)
    ensures Step(p, o.state, o.anchors, o.isLocalizing, o.frameEnded) == Polled(p, Waiting(IsLast(o.anchors, p.anchor)))
  {
  }

  /** After a hundred resolving resumptions from the start, the message is written on each one where the anchor is last. */
  lemma AdvisesAfterHundredPolls(anchor: AnchorId, obs: seq<Observation>, o: Observation)
    requires |obs| >= RetryCap
    requires forall i :: 0 <= i < |obs| ==> StillResolving(Start(anchor), obs[i])
    requires StillResolving(Start(anchor), o)
    ensures Step(Run(Start(anchor), obs), o.state, o.anchors, o.isLocalizing, o.frameEnded).effect
            == Waiting(IsLast(o.anchors, anchor))
  {
    RetrySaturates(Start(anchor), obs);
    RetryStaysCapped(Start(anchor), obs);
  }

  /** A coroutine that has ended does nothing more. */
  lemma {:induction false} EndedStaysIdle(p: Poller, obs: seq<Observation>)
    requires !p.running
    ensures Run(p, obs) == p
    ensures forall i :: 0 <= i < |obs| ==> Effects(p, obs)[i] == Idle
    decreases |obs|
  {
    if obs != [] {
      EndedStaysIdle(p, obs[1..]);
      assert forall i :: 1 <= i < |obs| ==> Effects(p, obs)[i] == Effects(p, obs[1..])[i - 1];
    }
  }

  /** Emptying the list, or losing the anchor from it, while it resolves ends the coroutine, and nothing later has an effect. */
  lemma CancelledIsFinal(p: Poller, o: Observation, later: seq<Observation>)
    requires p.running && o.state == TaskInProgress && !Contains(o.anchors, p.anchor)
    requires o.anchors == [] || !Gone(p, o.frameEnded)
    ensures Step(p, o.state, o.anchors, o.isLocalizing, o.frameEnded).effect == Cancelled
    ensures forall i :: 0 <= i < |later| ==>
              Effects(Step(p, o.state, o.anchors, o.isLocalizing, o.frameEnded).poller, later)[i] == Idle
  {
    EndedStaysIdle(Step(p, o.state, o.anchors, o.isLocalizing, o.frameEnded).poller, later);
  }

  /** A coroutine that ends while its controller is localizing always hides its anchor. */
  lemma LocalizingAlwaysHides(p: Poller, o: Observation)
    requires p.running && o.state != TaskInProgress && o.isLocalizing && !Gone(p, o.frameEnded)
    ensures Step(p, o.state, o.anchors, o.isLocalizing, o.frameEnded).effect.Finished?
    ensures !Step(p, o.state, o.anchors, o.isLocalizing, o.frameEnded).effect.active
  {
  }

  /**
    Once its anchor is destroyed, a running coroutine throws at its next
    resumption after the frame ends, unless the list is empty while the
    anchor still resolves, and it does nothing after that.
   */
  lemma DestroyedAnchorThrows(p: Poller, o: Observation, later: seq<Observation>)
    requires p.running && p.destroyed && o.frameEnded
    ensures var r := Step(p, o.state, o.anchors, o.isLocalizing, o.frameEnded);
            (PollOutcome(r.effect) == Faulted(DestroyedAnchor) <==> o.state != TaskInProgress || o.anchors != [])
            && !r.poller.running
            && forall i :: 0 <= i < |later| ==> Effects(r.poller, later)[i] == Idle
  {
    EndedStaysIdle(Step(p, o.state, o.anchors, o.isLocalizing, o.frameEnded).poller, later);
  }
}
