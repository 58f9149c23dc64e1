/** A positioned object on the surface, as an immutable value.

    Every operation goes through the one private constructor of the source,
    which sets `z` to 0 and `color` to white whatever it is given; a
    component is therefore `WellFormed` whenever it was built by these
    functions. */
module Components {
  import opened Wrappers
  import opened JsNumber

  /** Which pointer holds a component, the snowport id of the Grab event that
      set it, and the offset between the contact point and the position. */
  datatype Grab = Grab(snowportId: int, pointerId: int, offsetX: Coord, offsetY: Coord)

  datatype Component = Component(
    id: int,
    x: Coord,
    y: Coord,
    z: real,
    width: real,
    height: real,
    color: int,
    grab: Option<Grab>)

  const DefaultWidth: real := 6.35
  const DefaultHeight: real := 8.89
  const White: int := 0xffffff

  predicate WellFormed(c: Component)
  {
    c.z == 0.0 && c.color == White
  }

  /** The private constructor: z and color come from field initialisers. */
  function Make(id: int, x: Coord, y: Coord, width: real, height: real, grab: Option<Grab>): (c: Component)
    ensures WellFormed(c)
  {
    Component(id, x, y, 0.0, width, height, White, grab)
  }

  /** Component.create: a card of the default size at (x, y), held by nobody. */
  function Create(id: int, x: Coord, y: Coord): (c: Component)
    ensures WellFormed(c)
    ensures c.id == id && c.x == x && c.y == y
    ensures c.width == DefaultWidth && c.height == DefaultHeight
    ensures c.grab == None
  {
    Make(id, x, y, DefaultWidth, DefaultHeight, None)
  }

  /** setPosition changes the position and nothing else. */
  function SetPosition(c: Component, x: Coord, y: Coord): (r: Component)
    ensures WellFormed(r)
    ensures r.x == x && r.y == y
    ensures r.id == c.id && r.width == c.width && r.height == c.height && r.grab == c.grab
    ensures WellFormed(c) ==> r == c.(x := x, y := y)
  {
    Make(c.id, x, y, c.width, c.height, c.grab)
  }

  /** setGrab replaces the grab record and nothing else. */
  function SetGrab(c: Component, snowportId: int, pointerId: int, offsetX: Coord, offsetY: Coord): (r: Component)
    ensures WellFormed(r)
    ensures r.grab == Some(Grab(snowportId, pointerId, offsetX, offsetY))
    ensures r.id == c.id && r.x == c.x && r.y == c.y && r.width == c.width && r.height == c.height
    ensures WellFormed(c) ==> r == c.(grab := Some(Grab(snowportId, pointerId, offsetX, offsetY)))
  {
    Make(c.id, c.x, c.y, c.width, c.height, Some(Grab(snowportId, pointerId, offsetX, offsetY)))
  }

  /** removeGrab clears the grab record and nothing else. */
  function RemoveGrab(c: Component): (r: Component)
    ensures WellFormed(r)
    ensures r.grab == None
    ensures r.id == c.id && r.x == c.x && r.y == c.y && r.width == c.width && r.height == c.height
    ensures WellFormed(c) ==> r == c.(grab := None)
  {
    Make(c.id, c.x, c.y, c.width, c.height, None)
  }

  /** The snowport id of the grab holding the component, or -1 if none
      (`component.grab?.snowportId ?? -1`). */
  function GrabId(c: Component): (r: int)
    ensures c.grab.None? ==> r == -1
    ensures c.grab.Some? ==> r == c.grab.value.snowportId
  {
    if c.grab.Some? then c.grab.value.snowportId else -1
  }

  /** The setters rebuild through the private constructor, so a component
      whose z or color differ from the initialisers would not keep them. */
  lemma SettersRebuild()
    ensures var odd := Component(0, None, None, 7.0, 1.0, 1.0, 0, None);
            && SetPosition(odd, None, None).z == 0.0 && SetPosition(odd, None, None).color == White
            && SetGrab(odd, 1, 0, None, None).z == 0.0 && RemoveGrab(odd).color == White
  {
  }

  /** Moving and grabbing touch disjoint fields, so they commute. */
  lemma SetGrabSetPositionCommute(c: Component, sid: int, pointer: int, ox: Coord, oy: Coord, x: Coord, y: Coord)
    ensures SetPosition(SetGrab(c, sid, pointer, ox, oy), x, y) == SetGrab(SetPosition(c, x, y), sid, pointer, ox, oy)
  {
  }

  /** Releasing undoes grabbing on a component that was not held. */
  lemma RemoveGrabUndoesSetGrab(c: Component, sid: int, pointer: int, ox: Coord, oy: Coord)
    requires WellFormed(c) && c.grab == None
    ensures RemoveGrab(SetGrab(c, sid, pointer, ox, oy)) == c
  {
  }
}
