/** The interaction surface, without rendering: an immutable record of a
    camera and two event lists, with the pointer interactions that append
    Grab, Drag and Drop events.

    The camera is a type parameter; the source's Camera operations
    (`getWorldPosition`, `addPointer`, `updatePointer`, `removePointer`) and
    the clock's `takeSnowportId` enter as parameters: the world position of
    the pointer, the camera the source would compute, and the fresh snowport
    id.  The components the interactions inspect are a parameter too: the
    current components of the log, in iteration order. */
module Surfaces {
  import opened Wrappers
  import opened JsNumber
  import opened Components
  import opened Events
  import EventProcessor

  datatype Surface<C> = Surface(camera: C, priorEvents: seq<Event>, events: seq<Event>)

  /** Surface.create: the given camera and empty event lists. */
  function Create<C>(camera: C): (s: Surface<C>)
    ensures s.camera == camera && s.priorEvents == [] && s.events == []
  {
    Surface(camera, [], [])
  }

  /** setCamera replaces the camera and keeps both event lists. */
  function SetCamera<C>(s: Surface<C>, camera: C): (r: Surface<C>)
    ensures r.camera == camera
    ensures r.priorEvents == s.priorEvents && r.events == s.events
  {
    s.(camera := camera)
  }

  /** updateCamera applies `fn` to the camera and keeps both event lists. */
  function UpdateCamera<C>(s: Surface<C>, fn: C -> C): (r: Surface<C>)
    ensures r.camera == fn(s.camera)
    ensures r.priorEvents == s.priorEvents && r.events == s.events
  {
    SetCamera(s, fn(s.camera))
  }

  /** addEvent: the event goes at the end; the earlier events, the prior
      events and the camera are kept. */
  function AddEvent<C>(s: Surface<C>, e: Event): (r: Surface<C>)
    ensures |r.events| == |s.events| + 1
    ensures r.events[..|s.events|] == s.events && r.events[|s.events|] == e
    ensures r.camera == s.camera && r.priorEvents == s.priorEvents
  {
    s.(events := s.events + [e])
  }

  /** setDatabaseEvents: appends, in order, the incoming events whose
      snowport id none of the current events has.  The id set is built once
      before the loop, so two incoming events with the same new id are both
      appended. */
  method SetDatabaseEvents<C>(s: Surface<C>, incoming: seq<Event>) returns (r: Surface<C>)
    ensures r.events == s.events + Unseen(IdsOf(s.events), incoming)
    ensures r.camera == s.camera && r.priorEvents == s.priorEvents
  {
    var ids: set<int> := {};
    var i := 0;
    while i < |s.events|
      invariant 0 <= i <= |s.events|
      invariant ids == IdsOf(s.events[..i])
    {
      IdsOfSnoc(s.events, i);
      ids := ids + {s.events[i].snowportId};
      i := i + 1;
    }
    assert s.events[..i] == s.events;
    var nextEvents := s.events;
    var j := 0;
    while j < |incoming|
      invariant 0 <= j <= |incoming|
      invariant nextEvents == s.events + Unseen(ids, incoming[..j])
    {
      UnseenSnoc(ids, incoming, j);
      if incoming[j].snowportId !in ids {
        nextEvents := nextEvents + [incoming[j]];
      }
      j := j + 1;
    }
    assert incoming[..j] == incoming;
    r := Surface(s.camera, s.priorEvents, nextEvents);
  }

  /** The merge keeps the current events as a prefix, adds only events with
      ids not already present, and adds every incoming event whose id is new. */
  lemma MergeKeepsPrefix(events: seq<Event>, incoming: seq<Event>)
    ensures var merged := events + Unseen(IdsOf(events), incoming);
            && merged[..|events|] == events
            && |merged| <= |events| + |incoming|
            && (forall e :: e in merged[|events|..] ==> e in incoming && e.snowportId !in IdsOf(events))
            && (forall e :: e in incoming && e.snowportId !in IdsOf(events) ==> e in merged)
  {
    var merged := events + Unseen(IdsOf(events), incoming);
    assert merged[|events|..] == Unseen(IdsOf(events), incoming);
  }

  /** Duplicates inside one incoming batch are not filtered out: two
      events sharing an id the old events lack are both kept. */
  lemma {:induction false} MergeKeepsBatchDuplicates(events: seq<Event>, e1: Event, e2: Event)
    requires e1.snowportId == e2.snowportId && e1.snowportId !in IdsOf(events)
    ensures Unseen(IdsOf(events), [e1, e2]) == [e1, e2]
  {
    assert [e1, e2][..1] == [e1];
    assert [e1][..0] == [];
  }

  /** Merging events already present changes nothing. */
  lemma {:induction false} MergeOwnEventsUnchanged(events: seq<Event>, incoming: seq<Event>)
    requires forall e :: e in incoming ==> e.snowportId in IdsOf(events)
    ensures Unseen(IdsOf(events), incoming) == []
    ensures events + Unseen(IdsOf(events), incoming) == events
    decreases |incoming|
  {
    if incoming != [] {
      var front := incoming[..|incoming| - 1];
      assert forall e :: e in front ==> e in incoming;
      MergeOwnEventsUnchanged(events, front);
      assert incoming[|incoming| - 1] in incoming;
    }
  }

  /** How far apart two coordinates are. */
  function Distance(a: real, b: real): (d: real)
    ensures d >= 0.0 && (d == a - b || d == b - a)
  {
    if a >= b then a - b else b - a
  }

  /** The hit test of grab: the point lies in the component's box, edges
      included.  An undefined position compares false, so it never hits. */
  predicate Contains(c: Component, wx: real, wy: real): (r: bool)
    ensures r <==> && c.x.Some? && c.y.Some?
                   && Distance(wx, c.x.value) <= c.width / 2.0
                   && Distance(wy, c.y.value) <= c.height / 2.0
    ensures r ==> c.width >= 0.0 && c.height >= 0.0
  {
    && c.x.Some? && c.y.Some?
    && wx >= c.x.value - c.width / 2.0 && wx <= c.x.value + c.width / 2.0
    && wy >= c.y.value - c.height / 2.0 && wy <= c.y.value + c.height / 2.0
  }

  /** `i` is the component grab picks: it contains the point, no containing
      component is higher, and every containing one before it is lower. */
  predicate IsTopmost(cs: seq<Component>, i: int, wx: real, wy: real)
  {
    && 0 <= i < |cs|
    && Contains(cs[i], wx, wy)
    && (forall j :: 0 <= j < |cs| && Contains(cs[j], wx, wy) ==> cs[j].z <= cs[i].z)
    && (forall j :: 0 <= j < i && Contains(cs[j], wx, wy) ==> cs[j].z < cs[i].z)
  }

  /** At most one component is the topmost hit. */
  lemma TopmostUnique(cs: seq<Component>, wx: real, wy: real, i: int, k: int)
    requires IsTopmost(cs, i, wx, wy) && IsTopmost(cs, k, wx, wy)
    ensures i == k
  {
  }

  /** The hit-test loop of grab: keeps a running result and replaces it only
      by a strictly higher hit, so the first of equal hits wins. */
  method TopmostHit(cs: seq<Component>, wx: real, wy: real) returns (r: Option<nat>)
    ensures r.Some? ==> IsTopmost(cs, r.value, wx, wy)
    ensures r.None? <==> forall j :: 0 <= j < |cs| ==> !Contains(cs[j], wx, wy)
  {
    r := None;
    var i := 0;
    while i < |cs|
      invariant 0 <= i <= |cs|
      invariant r.None? <==> forall j :: 0 <= j < i ==> !Contains(cs[j], wx, wy)
      invariant r.Some? ==> r.value < i && Contains(cs[r.value], wx, wy)
      invariant r.Some? ==> forall j :: 0 <= j < i && Contains(cs[j], wx, wy) ==> cs[j].z <= cs[r.value].z
      invariant r.Some? ==> forall j :: 0 <= j < r.value && Contains(cs[j], wx, wy) ==> cs[j].z < cs[r.value].z
    {
      if Contains(cs[i], wx, wy) && (r.None? || cs[i].z > cs[r.value].z) {
        r := Some(i);
      }
      i := i + 1;
    }
  }

  /** grab.  On a hit, appends a Grab by `pointerId` of the topmost
      component, with only the offsets between the point and the component's
      position set; otherwise only the camera changes, to `panned`. */
  method Grab<C>(s: Surface<C>, components: seq<Component>, pointerId: int, wx: real, wy: real,
                 freshId: int, panned: C)
    returns (r: Surface<C>)
    ensures r.priorEvents == s.priorEvents
    ensures (exists j :: 0 <= j < |components| && Contains(components[j], wx, wy)) ==>
              && r.camera == s.camera
              && |r.events| == |s.events| + 1 && r.events[..|s.events|] == s.events
              && var e := r.events[|s.events|];
                 && e.Grabbed? && e.entity == 0 && e.snowportId == freshId && e.pointerId == pointerId
                 && e.x.None? && e.y.None?
                 && exists i :: IsTopmost(components, i, wx, wy) && e.componentId == components[i].id
                               && e.xOffset == Some(wx - components[i].x.value)
                               && e.yOffset == Some(wy - components[i].y.value)
    ensures (forall j :: 0 <= j < |components| ==> !Contains(components[j], wx, wy)) ==>
              r == SetCamera(s, panned)
  {
    var hit := TopmostHit(components, wx, wy);
    if hit.Some? {
      var c := components[hit.value];
      var e := Grabbed(0, freshId, pointerId, c.id, None, None, Sub(Some(wx), c.x), Sub(Some(wy), c.y));
      r := AddEvent(s, e);
      assert r.events[|s.events|] == e;
      assert IsTopmost(components, hit.value, wx, wy) && e.componentId == components[hit.value].id
          && e.xOffset == Some(wx - components[hit.value].x.value)
          && e.yOffset == Some(wy - components[hit.value].y.value);
    } else {
      r := SetCamera(s, panned);
    }
  }

  /** `component.grab?.pointerId === id`. */
  predicate HeldBy(c: Component, pointerId: int): (r: bool)
    ensures r ==> c.grab.Some?
    ensures c.grab.Some? ==> (r <==> c.grab.value.pointerId == pointerId)
  {
    c.grab.Some? && c.grab.value.pointerId == pointerId
  }

  /** components.find: the first component held by `pointerId`. */
  function FindHeld(cs: seq<Component>, pointerId: int): (r: Option<nat>)
    ensures r.Some? ==> r.value < |cs| && HeldBy(cs[r.value], pointerId)
    ensures r.Some? ==> forall j :: 0 <= j < r.value ==> !HeldBy(cs[j], pointerId)
    ensures r.None? <==> forall j :: 0 <= j < |cs| ==> !HeldBy(cs[j], pointerId)
    decreases |cs|
  {
    if cs == [] then None
    else if HeldBy(cs[0], pointerId) then Some(0)
    else
      var rest := FindHeld(cs[1..], pointerId);
      if rest.Some? then Some(rest.value + 1) else None
  }

  /** drag.  If a component is held by `pointerId`, appends a Drag of it to
      the point minus the stored grab offset; otherwise only the camera
      changes, to `moved`. */
  function Drag<C>(s: Surface<C>, components: seq<Component>, pointerId: int, wx: real, wy: real,
                   freshId: int, moved: C): (r: Surface<C>)
    ensures r.priorEvents == s.priorEvents
    ensures FindHeld(components, pointerId).None? ==> r == SetCamera(s, moved)
    ensures FindHeld(components, pointerId).Some? ==>
              && r.camera == s.camera
              && |r.events| == |s.events| + 1 && r.events[..|s.events|] == s.events
              && var c := components[FindHeld(components, pointerId).value];
                 var e := r.events[|s.events|];
                 && e == Dragged(0, freshId, pointerId, c.id, e.x, e.y)
                 && (e.x.Some? <==> c.grab.value.offsetX.Some?)
                 && (e.x.Some? ==> e.x.value + c.grab.value.offsetX.value == wx)
                 && (e.y.Some? <==> c.grab.value.offsetY.Some?)
                 && (e.y.Some? ==> e.y.value + c.grab.value.offsetY.value == wy)
  {
    match FindHeld(components, pointerId)
    case Some(i) =>
      var c := components[i];
      AddEvent(s, Dragged(0, freshId, pointerId, c.id,
                          Sub(Some(wx), c.grab.value.offsetX), Sub(Some(wy), c.grab.value.offsetY)))
    case None => SetCamera(s, moved)
  }

  /** drop.  If a component is held by `pointerId`, appends a Drop of it with
      no coordinates; otherwise only the camera changes, to `released`. */
  function Drop<C>(s: Surface<C>, components: seq<Component>, pointerId: int, freshId: int, released: C)
    : (r: Surface<C>)
    ensures r.priorEvents == s.priorEvents
    ensures FindHeld(components, pointerId).None? ==> r == SetCamera(s, released)
    ensures FindHeld(components, pointerId).Some? ==>
              && r.camera == s.camera
              && |r.events| == |s.events| + 1 && r.events[..|s.events|] == s.events
              && r.events[|s.events|] ==
                 Dropped(0, freshId, pointerId, components[FindHeld(components, pointerId).value].id, None, None)
  {
    match FindHeld(components, pointerId)
    case Some(i) => AddEvent(s, Dropped(0, freshId, pointerId, components[i].id, None, None))
    case None => SetCamera(s, released)
  }

  /** Drag and drop agree on which component a pointer holds, and each
      appends an event exactly when the pointer holds one. */
  lemma DragDropAgree<C>(s: Surface<C>, components: seq<Component>, pointerId: int, wx: real, wy: real,
                         freshId: int, camera: C)
    ensures var d := Drag(s, components, pointerId, wx, wy, freshId, camera);
            var p := Drop(s, components, pointerId, freshId, camera);
            && |d.events| == |p.events|
            && (|d.events| == |s.events| + 1 <==> exists j :: 0 <= j < |components| && HeldBy(components[j], pointerId))
            && (|d.events| == |s.events| + 1 ==> d.events[|s.events|].componentId == p.events[|s.events|].componentId)
  {
  }

  /** The Grab the surface appends carries its offsets in `xOffset` and
      `yOffset` and leaves `x` and `y` undefined, while the processor reads
      `x` and `y` of a Grab: the grab record it sets has undefined offsets. */
  lemma GrabPayloadMismatch(sid: int, pointerId: int, componentId: int, ox: real, oy: real)
    ensures var e := Grabbed(0, sid, pointerId, componentId, None, None, Some(ox), Some(oy));
            var w := EventProcessor.WinOf(e);
            w.x == None && w.y == None && w.snowportId == sid && w.pointerId == pointerId
  {
  }
}
