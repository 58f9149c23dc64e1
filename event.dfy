/** The event model: the four event kinds, the flat database record, decoding
    a record into an event and selecting the events not yet persisted. */
module Events {
  import opened Wrappers
  import opened JsNumber
  import LogicClock

  datatype EventType = CreateType | GrabType | DragType | DropType

  /** The string value of each `EventType` member. */
  function Tag(t: EventType): (r: string)
    ensures r == "create" <==> t == CreateType
    ensures r == "grab" <==> t == GrabType
    ensures r == "drag" <==> t == DragType
    ensures r == "drop" <==> t == DropType
  {
    match t
    case CreateType => "create"
    case GrabType => "grab"
    case DragType => "drag"
    case DropType => "drop"
  }

  /** Reads a kind tag; `None` for any string that names no kind. */
  function ParseTag(s: string): (r: Option<EventType>)
    ensures r.Some? ==> Tag(r.value) == s
    ensures r.None? ==> forall t: EventType :: Tag(t) != s
  {
    if s == "create" then Some(CreateType)
    else if s == "grab" then Some(GrabType)
    else if s == "drag" then Some(DragType)
    else if s == "drop" then Some(DropType)
    else None
  }

  lemma TagRoundTrip(t: EventType)
    ensures ParseTag(Tag(t)) == Some(t)
  {
  }

  /** An event.  All kinds carry the acting entity, the snowport id (the log
      key), the pointer that produced it and the target component.  The
      coordinates are the JavaScript fields, possibly undefined: a Grab made
      by the surface carries only offsets, a Grab read back from the database
      only x and y (offsets 0), and Drop events carry whatever x and y the
      record had. */
  datatype Event =
    | Created(entity: int, snowportId: int, pointerId: int, componentId: int, x: Coord, y: Coord)
    | Grabbed(entity: int, snowportId: int, pointerId: int, componentId: int,
              x: Coord, y: Coord, xOffset: Coord, yOffset: Coord)
    | Dragged(entity: int, snowportId: int, pointerId: int, componentId: int, x: Coord, y: Coord)
    | Dropped(entity: int, snowportId: int, pointerId: int, componentId: int, x: Coord, y: Coord)

  /** The `type` field of an event: one kind per constructor. */
  function TypeOf(e: Event): (r: EventType)
    ensures r == CreateType <==> e.Created?
    ensures r == GrabType <==> e.Grabbed?
    ensures r == DragType <==> e.Dragged?
    ensures r == DropType <==> e.Dropped?
  {
    match e
    case Created(_, _, _, _, _, _) => CreateType
    case Grabbed(_, _, _, _, _, _, _, _) => GrabType
    case Dragged(_, _, _, _, _, _) => DragType
    case Dropped(_, _, _, _, _, _) => DropType
  }

  /** The flat record stored in the database; `eventType` is whatever string
      the store holds. */
  datatype DatabaseEvent = DatabaseEvent(
    playspace: int,
    snowportId: int,
    componentID: int,
    x: Coord,
    y: Coord,
    eventType: string)

  datatype DecodeError = UnknownEventType(eventType: string)

  /** The pure part of processDatabaseEvent: the switch on the kind tag. */
  function Decode(input: DatabaseEvent): (r: Result<Event, DecodeError>)
    ensures r.Err? <==> ParseTag(input.eventType).None?
    ensures r.Err? ==> r.error == UnknownEventType(input.eventType)
    ensures r.Ok? ==>
              && Tag(TypeOf(r.value)) == input.eventType
              && r.value.entity == input.playspace
              && r.value.snowportId == input.snowportId
              && r.value.pointerId == 0
              && r.value.componentId == input.componentID
              && r.value.x == input.x
              && r.value.y == input.y
    ensures r.Ok? && r.value.Grabbed? ==> r.value.xOffset == Some(0.0) && r.value.yOffset == Some(0.0)
  {
    match ParseTag(input.eventType)
    case None => Err(UnknownEventType(input.eventType))
    case Some(CreateType) =>
      Ok(Created(input.playspace, input.snowportId, 0, input.componentID, input.x, input.y))
    case Some(GrabType) =>
      Ok(Grabbed(input.playspace, input.snowportId, 0, input.componentID, input.x, input.y, Some(0.0), Some(0.0)))
    case Some(DragType) =>
      Ok(Dragged(input.playspace, input.snowportId, 0, input.componentID, input.x, input.y))
    case Some(DropType) =>
      Ok(Dropped(input.playspace, input.snowportId, 0, input.componentID, input.x, input.y))
  }

  /** What survives a trip through the database: the entity becomes the
      playspace 1, the pointer becomes 0 and Grab offsets become 0. */
  function Persisted(e: Event): Event
  {
    match e
    case Created(_, sid, _, c, x, y) => Created(1, sid, 0, c, x, y)
    case Grabbed(_, sid, _, c, x, y, _, _) => Grabbed(1, sid, 0, c, x, y, Some(0.0), Some(0.0))
    case Dragged(_, sid, _, c, x, y) => Dragged(1, sid, 0, c, x, y)
    case Dropped(_, sid, _, c, x, y) => Dropped(1, sid, 0, c, x, y)
  }

  /** The upsert row written for one event. */
  function ToRecord(e: Event): (r: DatabaseEvent)
    ensures r.playspace == 1
    ensures r.snowportId == e.snowportId && r.componentID == e.componentId
    ensures r.x == e.x && r.y == e.y
    ensures ParseTag(r.eventType) == Some(TypeOf(e))
    ensures Decode(r) == Ok(Persisted(e))
  {
    DatabaseEvent(1, e.snowportId, e.componentId, e.x, e.y, Tag(TypeOf(e)))
  }

  /** The snowport ids of a list of events. */
  function IdsOf(events: seq<Event>): (r: set<int>)
    ensures forall i :: 0 <= i < |events| ==> events[i].snowportId in r
  {
    set e | e in events :: e.snowportId
  }

  /** Every id in the set is the id of some event. */
  lemma IdsOfOnly(events: seq<Event>, id: int)
    requires id in IdsOf(events)
    ensures exists i :: 0 <= i < |events| && events[i].snowportId == id
  {
    var e :| e in events && e.snowportId == id;
    var i :| 0 <= i < |events| && events[i] == e;
  }

  /** The id set of a concatenation is the union of the id sets, so building
      it event by event gives the same set. */
  lemma IdsOfAppend(a: seq<Event>, b: seq<Event>)
    ensures IdsOf(a + b) == IdsOf(a) + IdsOf(b)
  {
    forall id | id in IdsOf(a + b) ensures id in IdsOf(a) + IdsOf(b) {
      IdsOfOnly(a + b, id);
      var i :| 0 <= i < |a + b| && (a + b)[i].snowportId == id;
      if i < |a| {
        assert a[i] in a;
      } else {
        assert b[i - |a|] in b;
      }
    }
    forall id | id in IdsOf(a) + IdsOf(b) ensures id in IdsOf(a + b) {
      if id in IdsOf(a) {
        IdsOfOnly(a, id);
        var i :| 0 <= i < |a| && a[i].snowportId == id;
        assert (a + b)[i] == a[i];
      } else {
        IdsOfOnly(b, id);
        var i :| 0 <= i < |b| && b[i].snowportId == id;
        assert (a + b)[|a| + i] == b[i];
      }
    }
  }

  /** The events, in order, whose snowport id is not in `ids`. */
  function Unseen(ids: set<int>, events: seq<Event>): (r: seq<Event>)
    ensures |r| <= |events|
    ensures forall e :: e in r <==> e in events && e.snowportId !in ids
    decreases |events|
  {
    if events == [] then []
    else
      var last := events[|events| - 1];
      Unseen(ids, events[..|events| - 1]) + (if last.snowportId in ids then [] else [last])
  }

  /** Filtering distributes over concatenation, so it keeps the input order. */
  lemma {:induction false} UnseenAppend(ids: set<int>, a: seq<Event>, b: seq<Event>)
    ensures Unseen(ids, a + b) == Unseen(ids, a) + Unseen(ids, b)
    decreases |b|
  {
    if b == [] {
      assert a + b == a;
    } else {
      var b' := b[..|b| - 1];
      assert (a + b)[..|a + b| - 1] == a + b';
      UnseenAppend(ids, a, b');
    }
  }

  /** The upsert rows of a list of events. */
  function Records(events: seq<Event>): (r: seq<DatabaseEvent>)
    ensures |r| == |events|
    ensures forall i :: 0 <= i < |events| ==> r[i] == ToRecord(events[i])
  {
    seq(|events|, i requires 0 <= i < |events| => ToRecord(events[i]))
  }

  /** createDatabaseUpserts as a value: the rows of the events not already
      in the database, in input order. */
  function Upserts(ids: set<int>, events: seq<Event>): (r: seq<DatabaseEvent>)
    ensures |r| <= |events|
    ensures forall u :: u in r ==> u.playspace == 1 && u.snowportId !in ids
    ensures forall e :: e in events && e.snowportId !in ids ==> ToRecord(e) in r
  {
    Records(Unseen(ids, events))
  }

  /** One more event adds its id to the id set. */
  lemma IdsOfSnoc(events: seq<Event>, i: int)
    requires 0 <= i < |events|
    ensures IdsOf(events[..i + 1]) == IdsOf(events[..i]) + {events[i].snowportId}
  {
    assert events[..i + 1] == events[..i] + [events[i]];
    IdsOfAppend(events[..i], [events[i]]);
  }

  /** One more event extends the filtered list by that event, or by nothing. */
  lemma UnseenSnoc(ids: set<int>, events: seq<Event>, j: int)
    requires 0 <= j < |events|
    ensures Unseen(ids, events[..j + 1]) ==
              Unseen(ids, events[..j]) + (if events[j].snowportId in ids then [] else [events[j]])
  {
    assert events[..j + 1][..j] == events[..j];
  }

  lemma RecordsSnoc(u: seq<Event>, e: Event)
    ensures Records(u + [e]) == Records(u) + [ToRecord(e)]
  {
  }

  /** One more event extends the upsert rows by its row, or by nothing. */
  lemma UpsertsSnoc(ids: set<int>, events: seq<Event>, j: int)
    requires 0 <= j < |events|
    ensures Upserts(ids, events[..j + 1]) ==
              Upserts(ids, events[..j]) + (if events[j].snowportId in ids then [] else [ToRecord(events[j])])
  {
    UnseenSnoc(ids, events, j);
    RecordsSnoc(Unseen(ids, events[..j]), events[j]);
  }

  /** createDatabaseUpserts.  Returns, in order, one row per event whose
      snowport id no database event has, each with playspace 1. */
  method CreateDatabaseUpserts(databaseEvents: seq<Event>, events: seq<Event>)
    returns (upserts: seq<DatabaseEvent>)
    ensures upserts == Upserts(IdsOf(databaseEvents), events)
    ensures |upserts| <= |events|
    ensures forall u :: u in upserts ==> u.playspace == 1
  {
    var dbIds: set<int> := {};
    var i := 0;
    while i < |databaseEvents|
      invariant 0 <= i <= |databaseEvents|
      invariant dbIds == IdsOf(databaseEvents[..i])
    {
      IdsOfSnoc(databaseEvents, i);
      dbIds := dbIds + {databaseEvents[i].snowportId};
      i := i + 1;
    }
    assert databaseEvents[..i] == databaseEvents;
    upserts := [];
    var j := 0;
    while j < |events|
      invariant 0 <= j <= |events|
      invariant upserts == Upserts(dbIds, events[..j])
    {
      var event := events[j];
      UpsertsSnoc(dbIds, events, j);
      if event.snowportId !in dbIds {
        upserts := upserts + [ToRecord(event)];
      }
      j := j + 1;
    }
    assert events[..j] == events;
  }

  /** processDatabaseEvent: ingests the record's snowport id into the clock,
      then decodes the record (the ingest happens even when the kind is
      unknown and decoding throws). */
  method ProcessDatabaseEvent(clock: LogicClock.Clock, now: int, input: DatabaseEvent)
    returns (r: Result<Event, DecodeError>)
    requires clock.Valid()
    modifies clock
    ensures clock.Valid()
    ensures clock.State() == LogicClock.Ingest(old(clock.State()), input.snowportId, now)
    ensures r == Decode(input)
  {
    clock.IngestSnowportId(input.snowportId, now);
    r := Decode(input);
  }
}
