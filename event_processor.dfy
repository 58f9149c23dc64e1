/** The reconciliation engine: folds the newly added entries of an event log
    into the cached component map.

    One call (`Processor.ProcessEvents`) does, in order:
    1. fail with "events were removed" if a key of the previous log is gone;
    2. visit the new keys in an unspecified order (the iteration order of an
       immutable set), applying each Create at once and keeping, per
       component and per kind, the Grab, Drag and Drop with the largest
       snowport id (`CollectBatch`);
    3. apply the winning grabs, then moves, then drops, failing if a target
       component is absent (`Settle`);
    4. only then store the new log and components.

    The map values are `Option<Component>`: a stale Drop stores `undefined`
    (here `None`) under its component, exactly as the source's update
    callback does when it returns nothing. */
module EventProcessor {
  import opened Wrappers
  import opened JsNumber
  import opened Components
  import opened Events

  /** An event log: snowport id to event. */
  type Log = map<int, Event>
  /** The derived components; `None` is a stored `undefined`. */
  type Snapshot = map<int, Option<Component>>

  /** The exceptions processEvents throws: "events were removed", and
      "component was grabbed / moved / dropped but did not yet exist". */
  datatype ProcessError = EventsRemoved | GrabbedMissing | MovedMissing | DroppedMissing

  /** The running best Grab, Drag or Drop of one component: its snowport id,
      pointer and coordinates (a Drag keeps pointer 0, a Drop coordinates
      0, as the source's tuples for those kinds do not carry them). */
  datatype Win = Win(snowportId: int, pointerId: int, x: Coord, y: Coord)

  /** The starting value of every running best: `[-1, 0, [0, 0]]`. */
  const NoWin: Win := Win(-1, 0, Some(0.0), Some(0.0))

  /** The fields of an event that the running best keeps.  The source reads
      `x` and `y` of a Grab event, not its offsets. */
  function WinOf(e: Event): (w: Win)
    ensures e.Created? ==> w == NoWin
    ensures !e.Created? ==> w.snowportId == e.snowportId
    ensures e.Grabbed? || e.Dragged? ==> w.x == e.x && w.y == e.y
    ensures e.Grabbed? || e.Dropped? ==> w.pointerId == e.pointerId
    ensures e.Dragged? ==> w.pointerId == 0
    ensures e.Dropped? ==> w.x == Some(0.0) && w.y == Some(0.0)
  {
    match e
    case Created(_, _, _, _, _, _) => NoWin
    case Grabbed(_, sid, pointer, _, x, y, _, _) => Win(sid, pointer, x, y)
    case Dragged(_, sid, _, _, x, y) => Win(sid, 0, x, y)
    case Dropped(_, sid, pointer, _, _, _) => Win(sid, pointer, Some(0.0), Some(0.0))
  }

  /** Offers one event to the running bests: it replaces the current best of
      its component when its snowport id is strictly larger. */
  function Offer(wins: map<int, Win>, e: Event): (r: map<int, Win>)
    ensures r.Keys == wins.Keys + {e.componentId}
    ensures e.componentId !in wins && e.snowportId <= -1 ==> r[e.componentId] == NoWin
    ensures forall c :: c in wins && c != e.componentId ==> r[c] == wins[c]
    ensures var prev := if e.componentId in wins then wins[e.componentId].snowportId else -1;
            && e.componentId in r
            && (!e.Created? ==> r[e.componentId].snowportId >= prev)
            && (!e.Created? ==> r[e.componentId].snowportId >= e.snowportId)
            && (e.snowportId > prev ==> r[e.componentId] == WinOf(e))
            && (e.snowportId <= prev && e.componentId in wins ==> r[e.componentId] == wins[e.componentId])
  {
    var prev := if e.componentId in wins then wins[e.componentId] else NoWin;
    wins[e.componentId := if e.snowportId > prev.snowportId then WinOf(e) else prev]
  }

  /** The component a Create event makes. */
  function CreateOf(e: Event): (c: Component)
    ensures WellFormed(c) && c.grab == None
    ensures c.id == e.componentId && c.x == e.x && c.y == e.y
    ensures c.width == DefaultWidth && c.height == DefaultHeight
  {
    Create(e.componentId, e.x, e.y)
  }

  /** Key `k` is among `keys` and holds an event of `kind` aimed at `c`. */
  ghost predicate Competes(log: Log, keys: set<int>, kind: EventType, c: int, k: int)
  {
    k in keys && k in log && TypeOf(log[k]) == kind && log[k].componentId == c
  }

  ghost predicate HasCandidate(log: Log, keys: set<int>, kind: EventType, c: int)
  {
    exists k :: Competes(log, keys, kind, c, k)
  }

  /** `w` is what last-writer-wins keeps for `c`: no competitor has a larger
      snowport id, and `w` is either the starting value (when no competitor
      beats -1) or taken from a competitor with that largest id. */
  ghost predicate IsWinner(log: Log, keys: set<int>, kind: EventType, c: int, w: Win)
  {
    && (forall k :: Competes(log, keys, kind, c, k) ==> log[k].snowportId <= w.snowportId)
    && (w == NoWin || exists k :: Competes(log, keys, kind, c, k) && log[k].snowportId > -1 && w == WinOf(log[k]))
  }

  /** One running best per component that has a competitor, each the winner. */
  ghost predicate WinnersOk(log: Log, keys: set<int>, kind: EventType, wins: map<int, Win>)
  {
    && (forall c :: c in wins <==> HasCandidate(log, keys, kind, c))
    && (forall c :: c in wins ==> IsWinner(log, keys, kind, c, wins[c]))
  }

  /** The components after the Creates among `keys`: a component with no
      Create keeps its previous entry, one with Creates holds the component
      made by one of them (the last one visited). */
  ghost predicate CreatesOk(last: Snapshot, log: Log, keys: set<int>, comps: Snapshot)
  {
    && (forall c :: c in comps <==> c in last || HasCandidate(log, keys, CreateType, c))
    && (forall c :: c in comps && !HasCandidate(log, keys, CreateType, c) ==> c in last && comps[c] == last[c])
    && (forall c :: c in comps && HasCandidate(log, keys, CreateType, c) ==>
          exists k :: Competes(log, keys, CreateType, c, k) && comps[c] == Some(CreateOf(log[k])))
  }

  /** What the first loop of processEvents leaves behind. */
  datatype Batch = Batch(components: Snapshot, grabs: map<int, Win>, moves: map<int, Win>, drops: map<int, Win>)

  ghost predicate Collected(last: Snapshot, log: Log, keys: set<int>, b: Batch)
  {
    && CreatesOk(last, log, keys, b.components)
    && WinnersOk(log, keys, GrabType, b.grabs)
    && WinnersOk(log, keys, DragType, b.moves)
    && WinnersOk(log, keys, DropType, b.drops)
  }

  lemma WinnersEmpty(log: Log, kind: EventType)
    ensures WinnersOk(log, {}, kind, map[])
  {
  }

  lemma CreatesEmpty(last: Snapshot, log: Log)
    ensures CreatesOk(last, log, {}, last)
  {
  }

  /** Offering the event at a new key keeps the running bests the winners. */
  lemma {:induction false} WinnersOffer(log: Log, keys: set<int>, kind: EventType, wins: map<int, Win>, k: int)
    requires WinnersOk(log, keys, kind, wins)
    requires kind != CreateType
    requires k in log && k !in keys && TypeOf(log[k]) == kind
    ensures WinnersOk(log, keys + {k}, kind, Offer(wins, log[k]))
  {
    var e := log[k];
    var c0 := e.componentId;
    var keys' := keys + {k};
    var wins' := Offer(wins, e);
    assert Competes(log, keys', kind, c0, k);
    forall c ensures c in wins' <==> HasCandidate(log, keys', kind, c) {
      if c != c0 && HasCandidate(log, keys', kind, c) {
        var j :| Competes(log, keys', kind, c, j);
        assert Competes(log, keys, kind, c, j);
      }
      if HasCandidate(log, keys, kind, c) {
        var j :| Competes(log, keys, kind, c, j);
        assert Competes(log, keys', kind, c, j);
      }
    }
    var prev := if c0 in wins then wins[c0] else NoWin;
    assert IsWinner(log, keys, kind, c0, prev);
    assert prev.snowportId >= -1;
    forall c | c in wins' ensures IsWinner(log, keys', kind, c, wins'[c]) {
      if c == c0 {
        if e.snowportId > prev.snowportId {
          assert wins'[c] == WinOf(e);
          assert Competes(log, keys', kind, c, k) && e.snowportId > -1;
          forall j | Competes(log, keys', kind, c, j) ensures log[j].snowportId <= e.snowportId {
            if j != k {
              assert Competes(log, keys, kind, c, j);
            }
          }
        } else {
          assert wins'[c] == prev;
          if prev != NoWin {
            var j :| Competes(log, keys, kind, c, j) && log[j].snowportId > -1 && prev == WinOf(log[j]);
            assert Competes(log, keys', kind, c, j);
          }
        }
      } else {
        assert wins'[c] == wins[c];
        assert IsWinner(log, keys, kind, c, wins[c]);
        if wins[c] != NoWin {
          var j :| Competes(log, keys, kind, c, j) && log[j].snowportId > -1 && wins[c] == WinOf(log[j]);
          assert Competes(log, keys', kind, c, j);
        }
      }
    }
  }

  /** An event of another kind changes nothing for `kind`. */
  lemma {:induction false} WinnersOtherKind(log: Log, keys: set<int>, kind: EventType, wins: map<int, Win>, k: int)
    requires WinnersOk(log, keys, kind, wins)
    requires k in log && TypeOf(log[k]) != kind
    ensures WinnersOk(log, keys + {k}, kind, wins)
  {
    forall c ensures HasCandidate(log, keys + {k}, kind, c) <==> HasCandidate(log, keys, kind, c) {
      if HasCandidate(log, keys + {k}, kind, c) {
        var j :| Competes(log, keys + {k}, kind, c, j);
        assert Competes(log, keys, kind, c, j);
      }
      if HasCandidate(log, keys, kind, c) {
        var j :| Competes(log, keys, kind, c, j);
        assert Competes(log, keys + {k}, kind, c, j);
      }
    }
    forall c | c in wins ensures IsWinner(log, keys + {k}, kind, c, wins[c]) {
      assert IsWinner(log, keys, kind, c, wins[c]);
      if wins[c] != NoWin {
        var j :| Competes(log, keys, kind, c, j) && log[j].snowportId > -1 && wins[c] == WinOf(log[j]);
        assert Competes(log, keys + {k}, kind, c, j);
      }
    }
  }

  /** Applying a Create at a new key keeps the components as described. */
  lemma {:induction false} CreatesStep(last: Snapshot, log: Log, keys: set<int>, comps: Snapshot, k: int)
    requires CreatesOk(last, log, keys, comps)
    requires k in log && k !in keys && log[k].Created?
    ensures CreatesOk(last, log, keys + {k}, comps[log[k].componentId := Some(CreateOf(log[k]))])
  {
    var e := log[k];
    var c0 := e.componentId;
    var keys' := keys + {k};
    var comps' := comps[c0 := Some(CreateOf(e))];
    assert Competes(log, keys', CreateType, c0, k);
    forall c | c != c0
      ensures HasCandidate(log, keys', CreateType, c) <==> HasCandidate(log, keys, CreateType, c)
    {
      if HasCandidate(log, keys', CreateType, c) {
        var j :| Competes(log, keys', CreateType, c, j);
        assert Competes(log, keys, CreateType, c, j);
      }
      if HasCandidate(log, keys, CreateType, c) {
        var j :| Competes(log, keys, CreateType, c, j);
        assert Competes(log, keys', CreateType, c, j);
      }
    }
    forall c | c in comps' && HasCandidate(log, keys', CreateType, c)
      ensures exists j :: Competes(log, keys', CreateType, c, j) && comps'[c] == Some(CreateOf(log[j]))
    {
      if c != c0 {
        var j :| Competes(log, keys, CreateType, c, j) && comps[c] == Some(CreateOf(log[j]));
        assert Competes(log, keys', CreateType, c, j);
      }
    }
  }

  /** Any other event leaves the components as described. */
  lemma {:induction false} CreatesOtherKind(last: Snapshot, log: Log, keys: set<int>, comps: Snapshot, k: int)
    requires CreatesOk(last, log, keys, comps)
    requires k in log && !log[k].Created?
    ensures CreatesOk(last, log, keys + {k}, comps)
  {
    forall c ensures HasCandidate(log, keys + {k}, CreateType, c) <==> HasCandidate(log, keys, CreateType, c) {
      if HasCandidate(log, keys + {k}, CreateType, c) {
        var j :| Competes(log, keys + {k}, CreateType, c, j);
        assert Competes(log, keys, CreateType, c, j);
      }
      if HasCandidate(log, keys, CreateType, c) {
        var j :| Competes(log, keys, CreateType, c, j);
        assert Competes(log, keys + {k}, CreateType, c, j);
      }
    }
    forall c | c in comps && HasCandidate(log, keys + {k}, CreateType, c)
      ensures exists j :: Competes(log, keys + {k}, CreateType, c, j) && comps[c] == Some(CreateOf(log[j]))
    {
      var j :| Competes(log, keys, CreateType, c, j) && comps[c] == Some(CreateOf(log[j]));
      assert Competes(log, keys + {k}, CreateType, c, j);
    }
  }

  lemma EmptyIffNoElement(s: set<int>)
    ensures s == {} <==> forall y :: y !in s
  {
    if forall y :: y !in s {
      assert s == {};
    }
  }

  /** Some element of a non-empty set: the next one an iteration visits. */
  method Pick(s: set<int>) returns (x: int)
    requires s != {}
    ensures x in s
  {
    EmptyIffNoElement(s);
    x :| x in s;
  }

  /** One iteration of the first loop of processEvents: a Create is applied
      at once, a Grab, Drag or Drop is offered to its kind's running bests. */
  method Visit(last: Snapshot, log: Log, done: set<int>, b: Batch, k: int) returns (b': Batch)
    requires Collected(last, log, done, b)
    requires k in log && k !in done
    ensures Collected(last, log, done + {k}, b')
  {
    var event := log[k];
    var comps, grabs, moves, drops := b.components, b.grabs, b.moves, b.drops;
    if event.Created? {
      CreatesStep(last, log, done, comps, k);
      comps := comps[event.componentId := Some(CreateOf(event))];
    } else {
      CreatesOtherKind(last, log, done, comps, k);
    }
    if event.Grabbed? {
      WinnersOffer(log, done, GrabType, grabs, k);
      grabs := Offer(grabs, event);
    } else {
      WinnersOtherKind(log, done, GrabType, grabs, k);
    }
    if event.Dragged? {
      WinnersOffer(log, done, DragType, moves, k);
      moves := Offer(moves, event);
    } else {
      WinnersOtherKind(log, done, DragType, moves, k);
    }
    if event.Dropped? {
      WinnersOffer(log, done, DropType, drops, k);
      drops := Offer(drops, event);
    } else {
      WinnersOtherKind(log, done, DropType, drops, k);
    }
    b' := Batch(comps, grabs, moves, drops);
  }

  /** The first loop of processEvents: visits the new keys in an unspecified
      order, applying Creates to the components and keeping the latest Grab,
      Drag and Drop of each component. */
  method CollectBatch(last: Snapshot, log: Log, keys: set<int>) returns (b: Batch)
    requires keys <= log.Keys
    ensures Collected(last, log, keys, b)
  {
    b := Batch(last, map[], map[], map[]);
    CreatesEmpty(last, log);
    WinnersEmpty(log, GrabType);
    WinnersEmpty(log, DragType);
    WinnersEmpty(log, DropType);
    var pending := keys;
    while pending != {}
      invariant pending <= keys
      invariant Collected(last, log, keys - pending, b)
      decreases |pending|
    {
      var k := Pick(pending);
      b := Visit(last, log, keys - pending, b, k);
      assert keys - (pending - {k}) == (keys - pending) + {k};
      pending := pending - {k};
    }
    assert keys - pending == keys;
  }

  /** The component at `c` exists (is neither absent nor `undefined`). */
  predicate Present(comps: Snapshot, c: int)
  {
    c in comps && comps[c].Some?
  }

  /** `after` is `before` with at most its grab changed. */
  predicate Kept(before: Component, after: Component)
  {
    && after.id == before.id && after.x == before.x && after.y == before.y
    && after.width == before.width && after.height == before.height
  }

  /** The components after the grabs of `done` are applied. */
  function WithGrabs(comps: Snapshot, grabs: map<int, Win>, done: set<int>): (r: Snapshot)
    ensures r.Keys == comps.Keys
    ensures forall c :: c in comps ==> (Present(r, c) <==> Present(comps, c))
    ensures forall c :: c in comps && !(c in done && c in grabs) ==> r[c] == comps[c]
    ensures forall c :: Present(comps, c) ==> Present(r, c) && Kept(comps[c].value, r[c].value)
    ensures forall c :: Present(comps, c) && WellFormed(comps[c].value) ==> Present(r, c) && WellFormed(r[c].value)
    ensures forall c :: c in done && c in grabs && Present(comps, c) ==>
              && Present(r, c)
              && WellFormed(r[c].value)
              && r[c].value.grab == Some(Grab(grabs[c].snowportId, grabs[c].pointerId, grabs[c].x, grabs[c].y))
  {
    map c | c in comps ::
      if c in done && c in grabs && comps[c].Some?
      then Some(SetGrab(comps[c].value, grabs[c].snowportId, grabs[c].pointerId, grabs[c].x, grabs[c].y))
      else comps[c]
  }

  /** The components after the moves of `done` are applied. */
  function WithMoves(comps: Snapshot, moves: map<int, Win>, done: set<int>): (r: Snapshot)
    ensures r.Keys == comps.Keys
    ensures forall c :: c in comps ==> (Present(r, c) <==> Present(comps, c))
    ensures forall c :: c in comps && !(c in done && c in moves) ==> r[c] == comps[c]
    ensures forall c :: Present(comps, c) ==>
              && Present(r, c)
              && r[c].value.id == comps[c].value.id && r[c].value.grab == comps[c].value.grab
              && r[c].value.width == comps[c].value.width && r[c].value.height == comps[c].value.height
    ensures forall c :: Present(comps, c) && WellFormed(comps[c].value) ==> Present(r, c) && WellFormed(r[c].value)
    ensures forall c :: c in done && c in moves && Present(comps, c) ==>
              && Present(r, c) && WellFormed(r[c].value)
              && r[c].value.x == moves[c].x && r[c].value.y == moves[c].y
  {
    map c | c in comps ::
      if c in done && c in moves && comps[c].Some?
      then Some(SetPosition(comps[c].value, moves[c].x, moves[c].y))
      else comps[c]
  }

  /** The outcome of a Drop on a component: released when the grab it holds
      (or -1) is older than the Drop, otherwise `undefined`. */
  function DropOutcome(v: Component, drop: Win): (r: Option<Component>)
    ensures r.Some? <==> GrabId(v) < drop.snowportId
    ensures r.Some? ==> r.value.grab == None && Kept(v, r.value) && WellFormed(r.value)
    ensures r.Some? && WellFormed(v) ==> r.value == v.(grab := None)
  {
    if GrabId(v) < drop.snowportId then Some(RemoveGrab(v)) else None
  }

  /** The components after the drops of `done` are applied. */
  function WithDrops(comps: Snapshot, drops: map<int, Win>, done: set<int>): (r: Snapshot)
    ensures r.Keys == comps.Keys
    ensures forall c :: c in comps && !(c in done && c in drops) ==> r[c] == comps[c]
    ensures forall c :: c in comps && r[c].Some? ==> Present(comps, c) && Kept(comps[c].value, r[c].value)
    ensures forall c :: c in done && c in drops && Present(comps, c) ==>
              (r[c].None? <==> GrabId(comps[c].value) >= drops[c].snowportId)
    ensures forall c :: c in done && c in drops && c in comps && r[c].Some? ==>
              r[c].value.grab == None && WellFormed(r[c].value)
    ensures forall c :: c in comps && r[c].Some? && Present(comps, c) && WellFormed(comps[c].value) ==>
              WellFormed(r[c].value)
  {
    map c | c in comps ::
      if c in done && c in drops && comps[c].Some?
      then DropOutcome(comps[c].value, drops[c])
      else comps[c]
  }

  /** Every key of `wins` names an existing component. */
  predicate AllPresent(comps: Snapshot, wins: map<int, Win>)
  {
    forall c :: c in wins ==> Present(comps, c)
  }

  /** The last three loops of processEvents: grabs, then moves, then drops,
      each failing on a missing target. */
  function ApplyWinners(comps: Snapshot, grabs: map<int, Win>, moves: map<int, Win>, drops: map<int, Win>)
    : (r: Result<Snapshot, ProcessError>)
    ensures r == Err(GrabbedMissing) <==> !AllPresent(comps, grabs)
    ensures r == Err(MovedMissing) <==> AllPresent(comps, grabs) && !AllPresent(comps, moves)
    ensures r == Err(DroppedMissing) <==>
              AllPresent(comps, grabs) && AllPresent(comps, moves) && !AllPresent(comps, drops)
    ensures r.Err? ==> r.error != EventsRemoved
    ensures r.Ok? ==> r.value.Keys == comps.Keys
    ensures r.Ok? ==> forall c :: c in comps && c !in grabs && c !in moves && c !in drops ==>
              r.value[c] == comps[c]
    ensures r.Ok? ==> forall c :: c in moves && r.value[c].Some? ==>
              r.value[c].value.x == moves[c].x && r.value[c].value.y == moves[c].y
    ensures r.Ok? ==> forall c :: c in grabs && c !in drops ==>
              r.value[c].Some? &&
              r.value[c].value.grab == Some(Grab(grabs[c].snowportId, grabs[c].pointerId, grabs[c].x, grabs[c].y))
    ensures r.Ok? ==> forall c :: c in drops ==>
              (r.value[c].None? <==>
                 (if c in grabs then grabs[c].snowportId else GrabId(comps[c].value)) >= drops[c].snowportId)
    ensures r.Ok? ==> forall c :: c in drops && r.value[c].Some? ==> r.value[c].value.grab == None
    ensures r.Ok? ==> forall c :: c in comps && r.value[c].Some? ==>
              comps[c].Some? && r.value[c].value.id == comps[c].value.id
    ensures r.Ok? ==> forall c :: c in comps && c !in drops ==> (r.value[c].Some? <==> comps[c].Some?)
    ensures r.Ok? ==> forall c :: c in moves && c !in drops ==> r.value[c].Some?
    ensures r.Ok? ==> forall c :: c in comps && r.value[c].Some? ==>
              r.value[c].value.width == comps[c].value.width && r.value[c].value.height == comps[c].value.height
    ensures r.Ok? ==> forall c :: c in comps && r.value[c].Some? && (c in grabs || c in moves || c in drops) ==>
              WellFormed(r.value[c].value)
    ensures r.Ok? ==> forall c :: c in comps && r.value[c].Some? && WellFormed(comps[c].value) ==>
              WellFormed(r.value[c].value)
    ensures r.Ok? ==> forall c :: c in comps && c !in moves && r.value[c].Some? ==>
              r.value[c].value.x == comps[c].value.x && r.value[c].value.y == comps[c].value.y
    ensures r.Ok? ==> forall c :: c in comps && c !in grabs && c !in drops && r.value[c].Some? ==>
              r.value[c].value.grab == comps[c].value.grab
  {
    if !AllPresent(comps, grabs) then Err(GrabbedMissing)
    else if !AllPresent(comps, moves) then Err(MovedMissing)
    else if !AllPresent(comps, drops) then Err(DroppedMissing)
    else
      AppliedFrame(comps, grabs, moves, drops);
      AppliedWins(comps, grabs, moves, drops);
      Ok(Applied(comps, grabs, moves, drops))
  }

  /** The components after all grabs, then all moves, then all drops. */
  function Applied(comps: Snapshot, grabs: map<int, Win>, moves: map<int, Win>, drops: map<int, Win>): (r: Snapshot)
    ensures r.Keys == comps.Keys
  {
    WithDrops(WithMoves(WithGrabs(comps, grabs, grabs.Keys), moves, moves.Keys), drops, drops.Keys)
  }

  /** What applying the winners leaves alone. */
  lemma AppliedFrame(comps: Snapshot, grabs: map<int, Win>, moves: map<int, Win>, drops: map<int, Win>)
    requires AllPresent(comps, grabs) && AllPresent(comps, moves) && AllPresent(comps, drops)
    ensures var d := Applied(comps, grabs, moves, drops);
      && (forall c :: c in comps && c !in grabs && c !in moves && c !in drops ==> d[c] == comps[c])
      && (forall c :: c in comps && d[c].Some? ==>
            comps[c].Some? && d[c].value.id == comps[c].value.id)
      && (forall c :: c in comps && c !in drops ==> (d[c].Some? <==> comps[c].Some?))
      && (forall c :: c in comps && d[c].Some? ==>
            d[c].value.width == comps[c].value.width && d[c].value.height == comps[c].value.height)
      && (forall c :: c in comps && d[c].Some? && WellFormed(comps[c].value) ==> WellFormed(d[c].value))
      && (forall c :: c in comps && d[c].Some? && (c in grabs || c in moves || c in drops) ==>
            WellFormed(d[c].value))
      && (forall c :: c in comps && c !in moves && d[c].Some? ==>
            d[c].value.x == comps[c].value.x && d[c].value.y == comps[c].value.y)
      && (forall c :: c in comps && c !in grabs && c !in drops && d[c].Some? ==>
            d[c].value.grab == comps[c].value.grab)
  {
    var afterGrabs := WithGrabs(comps, grabs, grabs.Keys);
    var afterMoves := WithMoves(afterGrabs, moves, moves.Keys);
    var d := WithDrops(afterMoves, drops, drops.Keys);
    forall c | c in comps && d[c].Some?
      ensures comps[c].Some? && d[c].value.id == comps[c].value.id
      ensures d[c].value.width == comps[c].value.width && d[c].value.height == comps[c].value.height
    {
      assert Present(afterMoves, c);
      assert Present(afterGrabs, c);
    }
  }

  /** What applying the winners sets: positions, grabs and drop outcomes. */
  lemma AppliedWins(comps: Snapshot, grabs: map<int, Win>, moves: map<int, Win>, drops: map<int, Win>)
    requires AllPresent(comps, grabs) && AllPresent(comps, moves) && AllPresent(comps, drops)
    ensures var d := Applied(comps, grabs, moves, drops);
      && (forall c :: c in moves && d[c].Some? ==> d[c].value.x == moves[c].x && d[c].value.y == moves[c].y)
      && (forall c :: c in moves && c !in drops ==> d[c].Some?)
      && (forall c :: c in grabs && c !in drops ==>
            d[c].Some? &&
            d[c].value.grab == Some(Grab(grabs[c].snowportId, grabs[c].pointerId, grabs[c].x, grabs[c].y)))
      && (forall c :: c in drops ==>
            (d[c].None? <==>
               (if c in grabs then grabs[c].snowportId else GrabId(comps[c].value)) >= drops[c].snowportId))
      && (forall c :: c in drops && d[c].Some? ==> d[c].value.grab == None)
  {
    var afterGrabs := WithGrabs(comps, grabs, grabs.Keys);
    var afterMoves := WithMoves(afterGrabs, moves, moves.Keys);
  }

  /** The second loop of processEvents: sets the winning grab on each
      component, failing if one is absent. */
  method ApplyGrabs(comps: Snapshot, grabs: map<int, Win>) returns (r: Result<Snapshot, ProcessError>)
    ensures AllPresent(comps, grabs) ==> r == Ok(WithGrabs(comps, grabs, grabs.Keys))
    ensures !AllPresent(comps, grabs) ==> r == Err(GrabbedMissing)
  {
    var next := comps;
    var pending := grabs.Keys;
    while pending != {}
      invariant pending <= grabs.Keys
      invariant next == WithGrabs(comps, grabs, grabs.Keys - pending)
      invariant forall c :: c in grabs && c !in pending ==> Present(comps, c)
      decreases |pending|
    {
      var c := Pick(pending);
      if !Present(next, c) {
        return Err(GrabbedMissing);
      }
      var g := grabs[c];
      next := next[c := Some(SetGrab(next[c].value, g.snowportId, g.pointerId, g.x, g.y))];
      assert grabs.Keys - (pending - {c}) == (grabs.Keys - pending) + {c};
      pending := pending - {c};
    }
    assert grabs.Keys - pending == grabs.Keys;
    return Ok(next);
  }

  /** The third loop of processEvents: moves each component to its winning
      Drag, failing if one is absent. */
  method ApplyMoves(comps: Snapshot, moves: map<int, Win>) returns (r: Result<Snapshot, ProcessError>)
    ensures AllPresent(comps, moves) ==> r == Ok(WithMoves(comps, moves, moves.Keys))
    ensures !AllPresent(comps, moves) ==> r == Err(MovedMissing)
  {
    var next := comps;
    var pending := moves.Keys;
    while pending != {}
      invariant pending <= moves.Keys
      invariant next == WithMoves(comps, moves, moves.Keys - pending)
      invariant forall c :: c in moves && c !in pending ==> Present(comps, c)
      decreases |pending|
    {
      var c := Pick(pending);
      if !Present(next, c) {
        return Err(MovedMissing);
      }
      var m := moves[c];
      next := next[c := Some(SetPosition(next[c].value, m.x, m.y))];
      assert moves.Keys - (pending - {c}) == (moves.Keys - pending) + {c};
      pending := pending - {c};
    }
    assert moves.Keys - pending == moves.Keys;
    return Ok(next);
  }

  /** The last loop of processEvents: applies each winning Drop, failing if
      a target is absent. */
  method ApplyDrops(comps: Snapshot, drops: map<int, Win>) returns (r: Result<Snapshot, ProcessError>)
    ensures AllPresent(comps, drops) ==> r == Ok(WithDrops(comps, drops, drops.Keys))
    ensures !AllPresent(comps, drops) ==> r == Err(DroppedMissing)
  {
    var next := comps;
    var pending := drops.Keys;
    while pending != {}
      invariant pending <= drops.Keys
      invariant next == WithDrops(comps, drops, drops.Keys - pending)
      invariant forall c :: c in drops && c !in pending ==> Present(comps, c)
      invariant forall c :: c in pending && c in comps ==> next[c] == comps[c]
      decreases |pending|
    {
      var c := Pick(pending);
      if !Present(next, c) {
        return Err(DroppedMissing);
      }
      next := next[c := DropOutcome(next[c].value, drops[c])];
      assert drops.Keys - (pending - {c}) == (drops.Keys - pending) + {c};
      pending := pending - {c};
    }
    assert drops.Keys - pending == drops.Keys;
    return Ok(next);
  }

  /** The last three loops of processEvents, in order. */
  method Settle(comps: Snapshot, grabs: map<int, Win>, moves: map<int, Win>, drops: map<int, Win>)
    returns (r: Result<Snapshot, ProcessError>)
    ensures r == ApplyWinners(comps, grabs, moves, drops)
  {
    r := ApplyGrabs(comps, grabs);
    if r.Err? {
      return;
    }
    var afterGrabs := r.value;
    assert AllPresent(afterGrabs, moves) == AllPresent(comps, moves);
    r := ApplyMoves(afterGrabs, moves);
    if r.Err? {
      return;
    }
    var afterMoves := r.value;
    assert AllPresent(afterMoves, drops) == AllPresent(comps, drops);
    r := ApplyDrops(afterMoves, drops);
  }

  /** The log's keys are the snowport ids of its events. */
  ghost predicate KeyedBySnowportId(log: Log)
  {
    forall k :: k in log ==> log[k].snowportId == k
  }

  /** No component has two Creates among `keys`. */
  ghost predicate OneCreatePerComponent(log: Log, keys: set<int>)
  {
    forall k1, k2 ::
      (k1 in keys && k1 in log && log[k1].Created? && k2 in keys && k2 in log && log[k2].Created?
       && log[k1].componentId == log[k2].componentId)
      ==> k1 == k2
  }

  /** A winner other than the starting value has a snowport id above -1. */
  lemma {:induction false} WinnerAboveStart(log: Log, keys: set<int>, kind: EventType, c: int, w: Win)
    requires kind != CreateType
    requires IsWinner(log, keys, kind, c, w)
    ensures w != NoWin ==> w.snowportId > -1
  {
    if w != NoWin {
      var j :| Competes(log, keys, kind, c, j) && log[j].snowportId > -1 && w == WinOf(log[j]);
      assert w.snowportId == log[j].snowportId;
    }
  }

  /** A winner's snowport id is at least every other winner's. */
  lemma {:induction false} WinnerAtLeast(log: Log, keys: set<int>, kind: EventType, c: int, w1: Win, w2: Win)
    requires kind != CreateType
    requires IsWinner(log, keys, kind, c, w1) && IsWinner(log, keys, kind, c, w2)
    ensures w1.snowportId <= w2.snowportId
  {
    WinnerAboveStart(log, keys, kind, c, w2);
    if w1 != NoWin {
      var j1 :| Competes(log, keys, kind, c, j1) && log[j1].snowportId > -1 && w1 == WinOf(log[j1]);
      assert log[j1].snowportId <= w2.snowportId;
    }
  }

  lemma {:induction false} WinnerUnique(log: Log, keys: set<int>, kind: EventType, c: int, w1: Win, w2: Win)
    requires kind != CreateType
    requires KeyedBySnowportId(log)
    requires IsWinner(log, keys, kind, c, w1) && IsWinner(log, keys, kind, c, w2)
    ensures w1 == w2
  {
    WinnerAtLeast(log, keys, kind, c, w1, w2);
    WinnerAtLeast(log, keys, kind, c, w2, w1);
    WinnerAboveStart(log, keys, kind, c, w1);
    WinnerAboveStart(log, keys, kind, c, w2);
    if w1 != NoWin && w2 != NoWin {
      var j1 :| Competes(log, keys, kind, c, j1) && log[j1].snowportId > -1 && w1 == WinOf(log[j1]);
      var j2 :| Competes(log, keys, kind, c, j2) && log[j2].snowportId > -1 && w2 == WinOf(log[j2]);
      assert log[j1].snowportId == log[j2].snowportId;
      assert j1 == j2;
    }
  }

  lemma {:induction false} WinnersUnique(log: Log, keys: set<int>, kind: EventType, w1: map<int, Win>, w2: map<int, Win>)
    requires kind != CreateType
    requires KeyedBySnowportId(log)
    requires WinnersOk(log, keys, kind, w1) && WinnersOk(log, keys, kind, w2)
    ensures w1 == w2
  {
    forall c | c in w1 ensures c in w2 && w1[c] == w2[c] {
      WinnerUnique(log, keys, kind, c, w1[c], w2[c]);
    }
    forall c | c in w2 ensures c in w1 {
      assert HasCandidate(log, keys, kind, c);
    }
  }

  /** Order independence: when the log is keyed by snowport id and no
      component is created twice in one batch, every visiting order of the
      new keys collects the same batch, so one call's result does not depend
      on iteration order. */
  lemma {:induction false} CollectedUnique(last: Snapshot, log: Log, keys: set<int>, b1: Batch, b2: Batch)
    requires KeyedBySnowportId(log)
    requires OneCreatePerComponent(log, keys)
    requires Collected(last, log, keys, b1) && Collected(last, log, keys, b2)
    ensures b1 == b2
  {
    WinnersUnique(log, keys, GrabType, b1.grabs, b2.grabs);
    WinnersUnique(log, keys, DragType, b1.moves, b2.moves);
    WinnersUnique(log, keys, DropType, b1.drops, b2.drops);
    forall c | c in b1.components ensures c in b2.components && b1.components[c] == b2.components[c] {
      if HasCandidate(log, keys, CreateType, c) {
        var j1 :| Competes(log, keys, CreateType, c, j1) && b1.components[c] == Some(CreateOf(log[j1]));
        var j2 :| Competes(log, keys, CreateType, c, j2) && b2.components[c] == Some(CreateOf(log[j2]));
        assert j1 == j2;
      }
    }
    forall c | c in b2.components ensures c in b1.components {
      assert c in last || HasCandidate(log, keys, CreateType, c);
    }
  }

  /** The cached log and components (module state in the source). */
  class Processor {
    var lastEvents: Log
    var lastComponents: Snapshot

    constructor ()
      ensures lastEvents == map[] && lastComponents == map[]
    {
      lastEvents := map[];
      lastComponents := map[];
    }

    /** resetEvents: back to the empty log and components. */
    method Reset()
      modifies this
      ensures lastEvents == map[] && lastComponents == map[]
    {
      lastEvents := map[];
      lastComponents := map[];
    }

    /** processEvents.  `batch` is what the first loop collected (ghost: it
        exists only to state the result). */
    method ProcessEvents(nextEvents: Log) returns (r: Result<Snapshot, ProcessError>, ghost batch: Batch)
      modifies this
      ensures !(old(lastEvents).Keys <= nextEvents.Keys) ==> r == Err(EventsRemoved)
      ensures old(lastEvents).Keys <= nextEvents.Keys ==>
                && Collected(old(lastComponents), nextEvents, nextEvents.Keys - old(lastEvents).Keys, batch)
                && r == ApplyWinners(batch.components, batch.grabs, batch.moves, batch.drops)
      ensures r.Err? ==> lastEvents == old(lastEvents) && lastComponents == old(lastComponents)
      ensures r.Ok? ==> lastEvents == nextEvents && lastComponents == r.value
    {
      var lastKeys := lastEvents.Keys;
      var nextKeys := nextEvents.Keys;
      var lastOnly := lastKeys - nextKeys;
      var nextOnly := nextKeys - lastKeys;
      batch := Batch(map[], map[], map[], map[]);
      EmptyIffNoElement(lastOnly);
      if lastOnly != {} {
        return Err(EventsRemoved), batch;
      }
      forall y | y in lastKeys ensures y in nextKeys {
        assert y !in lastOnly;
      }
      var b := CollectBatch(lastComponents, nextEvents, nextOnly);
      batch := b;
      r := Settle(b.components, b.grabs, b.moves, b.drops);
      if r.Ok? {
        lastEvents := nextEvents;
        lastComponents := r.value;
      }
    }
  }

  /** The log of the source's "process creation" test: a Create of
      component 0 then a Grab of it, neither with coordinates. */
  const CreateGrabLog: Log :=
    map[0 := Created(0, 0, 0, 0, None, None), 1 := Grabbed(0, 1, 0, 0, None, None, None, None)]

  /** The log of the source's "process draging" test: a Create at (0, 0), a
      Grab, then a Drag to (10, 0). */
  const CreateGrabDragLog: Log :=
    map[0 := Created(0, 0, 0, 0, Some(0.0), Some(0.0)),
        1 := Grabbed(0, 1, 0, 0, None, None, None, None),
        2 := Dragged(0, 2, 0, 0, Some(10.0), Some(0.0))]

  /** The batch each example log collects from an empty cache. */
  const CreateGrabBatch: Batch :=
    Batch(map[0 := Some(Create(0, None, None))], map[0 := Win(1, 0, None, None)], map[], map[])
  const CreateGrabDragBatch: Batch :=
    Batch(map[0 := Some(Create(0, Some(0.0), Some(0.0)))], map[0 := Win(1, 0, None, None)],
          map[0 := Win(2, 0, Some(10.0), Some(0.0))], map[])

  lemma CreateGrabKeyed()
    ensures KeyedBySnowportId(CreateGrabLog) && OneCreatePerComponent(CreateGrabLog, {0, 1})
    ensures CreateGrabLog.Keys == {0, 1}
  {
  }

  lemma CreateGrabCreates()
    ensures CreatesOk(map[], CreateGrabLog, {0, 1}, CreateGrabBatch.components)
  {
    assert Competes(CreateGrabLog, {0, 1}, CreateType, 0, 0);
  }

  lemma CreateGrabGrabs()
    ensures WinnersOk(CreateGrabLog, {0, 1}, GrabType, CreateGrabBatch.grabs)
  {
    assert Competes(CreateGrabLog, {0, 1}, GrabType, 0, 1);
  }

  lemma CreateGrabOthers()
    ensures WinnersOk(CreateGrabLog, {0, 1}, DragType, CreateGrabBatch.moves)
    ensures WinnersOk(CreateGrabLog, {0, 1}, DropType, CreateGrabBatch.drops)
  {
  }

  lemma CreateGrabDragKeyed()
    ensures KeyedBySnowportId(CreateGrabDragLog) && OneCreatePerComponent(CreateGrabDragLog, {0, 1, 2})
    ensures CreateGrabDragLog.Keys == {0, 1, 2}
  {
  }

  lemma CreateGrabDragCreates()
    ensures CreatesOk(map[], CreateGrabDragLog, {0, 1, 2}, CreateGrabDragBatch.components)
  {
    assert Competes(CreateGrabDragLog, {0, 1, 2}, CreateType, 0, 0);
  }

  lemma CreateGrabDragGrabs()
    ensures WinnersOk(CreateGrabDragLog, {0, 1, 2}, GrabType, CreateGrabDragBatch.grabs)
  {
    assert Competes(CreateGrabDragLog, {0, 1, 2}, GrabType, 0, 1);
  }

  lemma CreateGrabDragMoves()
    ensures WinnersOk(CreateGrabDragLog, {0, 1, 2}, DragType, CreateGrabDragBatch.moves)
  {
    assert Competes(CreateGrabDragLog, {0, 1, 2}, DragType, 0, 2);
  }

  lemma CreateGrabDragDrops()
    ensures WinnersOk(CreateGrabDragLog, {0, 1, 2}, DropType, CreateGrabDragBatch.drops)
  {
  }

  lemma CreateGrabApplied()
    ensures var b := CreateGrabBatch;
            var r := ApplyWinners(b.components, b.grabs, b.moves, b.drops);
            r.Ok? && r.value.Keys == {0}
  {
    var b := CreateGrabBatch;
    assert AllPresent(b.components, b.grabs);
  }

  lemma CreateGrabDragApplied()
    ensures var b := CreateGrabDragBatch;
            var r := ApplyWinners(b.components, b.grabs, b.moves, b.drops);
            r.Ok? && 0 in r.value && r.value[0].Some? && r.value[0].value.x == Some(10.0)
  {
    var b := CreateGrabDragBatch;
    assert AllPresent(b.components, b.grabs);
    assert AllPresent(b.components, b.moves);
  }

  /** Whatever batch the "process creation" log collects, applying it succeeds
      with one component. */
  lemma CreateGrabOutcome(batch: Batch)
    requires Collected(map[], CreateGrabLog, {0, 1}, batch)
    ensures var r := ApplyWinners(batch.components, batch.grabs, batch.moves, batch.drops);
            r.Ok? && |r.value| == 1
  {
    CreateGrabKeyed();
    CreateGrabCreates();
    CreateGrabGrabs();
    CreateGrabOthers();
    CollectedUnique(map[], CreateGrabLog, {0, 1}, batch, CreateGrabBatch);
    CreateGrabApplied();
  }

  /** Whatever batch the "process draging" log collects, applying it leaves
      component 0 at x = 10. */
  lemma CreateGrabDragOutcome(batch: Batch)
    requires Collected(map[], CreateGrabDragLog, {0, 1, 2}, batch)
    ensures var r := ApplyWinners(batch.components, batch.grabs, batch.moves, batch.drops);
            r.Ok? && Present(r.value, 0) && r.value[0].value.x == Some(10.0)
  {
    CreateGrabDragKeyed();
    CreateGrabDragCreates();
    CreateGrabDragGrabs();
    CreateGrabDragMoves();
    CreateGrabDragDrops();
    CollectedUnique(map[], CreateGrabDragLog, {0, 1, 2}, batch, CreateGrabDragBatch);
    CreateGrabDragApplied();
  }

  /** The "process creation" test: a fresh processor given a Create and a
      Grab of one component returns a map of one entry. */
  method CreateThenGrabExample() returns (count: int)
    ensures count == 1
  {
    var p := new Processor();
    ghost var before := p.lastEvents.Keys;
    assert CreateGrabLog.Keys - before == {0, 1} by { CreateGrabKeyed(); }
    var r, batch := p.ProcessEvents(CreateGrabLog);
    CreateGrabOutcome(batch);
    count := |r.value|;
  }

  /** The "process draging" test: after a Create at (0, 0), a Grab and a Drag
      to (10, 0), component 0 is at x = 10. */
  method CreateGrabDragExample() returns (x: Coord)
    ensures x == Some(10.0)
  {
    var p := new Processor();
    ghost var before := p.lastEvents.Keys;
    assert CreateGrabDragLog.Keys - before == {0, 1, 2} by { CreateGrabDragKeyed(); }
    var r, batch := p.ProcessEvents(CreateGrabDragLog);
    CreateGrabDragOutcome(batch);
    x := r.value[0].value.x;
  }

  /** A Create at (0, 0) and a Drag with snowport id 5 to (5, 0). */
  const SplitLogPart: Log :=
    map[0 := Created(0, 0, 0, 0, Some(0.0), Some(0.0)),
        5 := Dragged(0, 5, 0, 0, Some(5.0), Some(0.0))]

  /** The same log with an older Drag, snowport id 3 to (3, 0), that arrived late. */
  const SplitLogWhole: Log :=
    map[0 := Created(0, 0, 0, 0, Some(0.0), Some(0.0)),
        3 := Dragged(0, 3, 0, 0, Some(3.0), Some(0.0)),
        5 := Dragged(0, 5, 0, 0, Some(5.0), Some(0.0))]

  const SplitPartBatch: Batch :=
    Batch(map[0 := Some(Create(0, Some(0.0), Some(0.0)))], map[], map[0 := Win(5, 0, Some(5.0), Some(0.0))], map[])
  const SplitWholeBatch: Batch :=
    Batch(map[0 := Some(Create(0, Some(0.0), Some(0.0)))], map[], map[0 := Win(5, 0, Some(5.0), Some(0.0))], map[])

  /** The batch of the late Drag alone, on top of the cached components. */
  function SplitLateBatch(last: Snapshot): (b: Batch)
    ensures b.components == last && b.moves.Keys == {0}
  {
    Batch(last, map[], map[0 := Win(3, 0, Some(3.0), Some(0.0))], map[])
  }

  lemma SplitPartKeyed()
    ensures KeyedBySnowportId(SplitLogPart) && OneCreatePerComponent(SplitLogPart, {0, 5})
    ensures SplitLogPart.Keys == {0, 5}
  {
  }

  lemma SplitPartCreates()
    ensures CreatesOk(map[], SplitLogPart, {0, 5}, SplitPartBatch.components)
  {
    assert Competes(SplitLogPart, {0, 5}, CreateType, 0, 0);
  }

  lemma SplitPartWinners()
    ensures WinnersOk(SplitLogPart, {0, 5}, GrabType, SplitPartBatch.grabs)
    ensures WinnersOk(SplitLogPart, {0, 5}, DragType, SplitPartBatch.moves)
    ensures WinnersOk(SplitLogPart, {0, 5}, DropType, SplitPartBatch.drops)
  {
    assert Competes(SplitLogPart, {0, 5}, DragType, 0, 5);
  }

  lemma SplitWholeKeyed()
    ensures KeyedBySnowportId(SplitLogWhole) && OneCreatePerComponent(SplitLogWhole, {0, 3, 5})
    ensures SplitLogWhole.Keys == {0, 3, 5}
  {
  }

  lemma SplitWholeCreates()
    ensures CreatesOk(map[], SplitLogWhole, {0, 3, 5}, SplitWholeBatch.components)
  {
    assert Competes(SplitLogWhole, {0, 3, 5}, CreateType, 0, 0);
  }

  lemma SplitWholeMoves()
    ensures WinnersOk(SplitLogWhole, {0, 3, 5}, DragType, SplitWholeBatch.moves)
  {
    assert Competes(SplitLogWhole, {0, 3, 5}, DragType, 0, 5);
  }

  lemma SplitWholeOthers()
    ensures WinnersOk(SplitLogWhole, {0, 3, 5}, GrabType, SplitWholeBatch.grabs)
    ensures WinnersOk(SplitLogWhole, {0, 3, 5}, DropType, SplitWholeBatch.drops)
  {
  }

  lemma SplitLateCollected(last: Snapshot)
    ensures Collected(last, SplitLogWhole, {3}, SplitLateBatch(last))
  {
    assert Competes(SplitLogWhole, {3}, DragType, 0, 3);
  }

  /** Applying the first delivery leaves component 0 at x = 5. */
  lemma SplitPartOutcome(batch: Batch)
    requires Collected(map[], SplitLogPart, {0, 5}, batch)
    ensures var r := ApplyWinners(batch.components, batch.grabs, batch.moves, batch.drops);
            r.Ok? && Present(r.value, 0) && r.value[0].value.x == Some(5.0)
  {
    SplitPartKeyed();
    SplitPartCreates();
    SplitPartWinners();
    CollectedUnique(map[], SplitLogPart, {0, 5}, batch, SplitPartBatch);
    SplitPartApplied();
  }

  lemma SplitPartApplied()
    ensures var b := SplitPartBatch;
            var r := ApplyWinners(b.components, b.grabs, b.moves, b.drops);
            r.Ok? && Present(r.value, 0) && r.value[0].value.x == Some(5.0)
  {
    var b := SplitPartBatch;
    assert AllPresent(b.components, b.moves);
  }

  /** Applying the late Drag alone moves component 0 to x = 3, over the newer Drag. */
  lemma SplitLateOutcome(last: Snapshot, batch: Batch)
    requires Present(last, 0)
    requires Collected(last, SplitLogWhole, {3}, batch)
    ensures var r := ApplyWinners(batch.components, batch.grabs, batch.moves, batch.drops);
            r.Ok? && Present(r.value, 0) && r.value[0].value.x == Some(3.0)
  {
    SplitWholeKeyed();
    SplitLateCollected(last);
    CollectedUnique(last, SplitLogWhole, {3}, batch, SplitLateBatch(last));
    SplitLateApplied(last);
  }

  lemma SplitLateApplied(last: Snapshot)
    requires Present(last, 0)
    ensures var b := SplitLateBatch(last);
            var r := ApplyWinners(b.components, b.grabs, b.moves, b.drops);
            r.Ok? && Present(r.value, 0) && r.value[0].value.x == Some(3.0)
  {
    var b := SplitLateBatch(last);
    assert AllPresent(b.components, b.moves);
  }

  /** Applying the whole log at once leaves component 0 at x = 5. */
  lemma SplitWholeOutcome(batch: Batch)
    requires Collected(map[], SplitLogWhole, {0, 3, 5}, batch)
    ensures var r := ApplyWinners(batch.components, batch.grabs, batch.moves, batch.drops);
            r.Ok? && Present(r.value, 0) && r.value[0].value.x == Some(5.0)
  {
    SplitWholeKeyed();
    SplitWholeCreates();
    SplitWholeMoves();
    SplitWholeOthers();
    CollectedUnique(map[], SplitLogWhole, {0, 3, 5}, batch, SplitWholeBatch);
    SplitWholeApplied();
  }

  lemma SplitWholeApplied()
    ensures var b := SplitWholeBatch;
            var r := ApplyWinners(b.components, b.grabs, b.moves, b.drops);
            r.Ok? && Present(r.value, 0) && r.value[0].value.x == Some(5.0)
  {
    var b := SplitWholeBatch;
    assert AllPresent(b.components, b.moves);
  }

  /** The split delivery: the first call sees the Create and the newer
      Drag, the second call adds the older Drag. */
  method DeliverInTwoCalls() returns (x: Coord)
    ensures x == Some(3.0)
  {
    var p := new Processor();
    ghost var before := p.lastEvents.Keys;
    assert SplitLogPart.Keys - before == {0, 5} by { SplitPartKeyed(); }
    var r1, batch1 := p.ProcessEvents(SplitLogPart);
    SplitPartOutcome(batch1);
    assert SplitLogWhole.Keys - SplitLogPart.Keys == {3} by { SplitPartKeyed(); SplitWholeKeyed(); }
    var r2, batch2 := p.ProcessEvents(SplitLogWhole);
    SplitLateOutcome(r1.value, batch2);
    x := r2.value[0].value.x;
  }

  /** The same events delivered in one call. */
  method DeliverInOneCall() returns (x: Coord)
    ensures x == Some(5.0)
  {
    var p := new Processor();
    ghost var before := p.lastEvents.Keys;
    assert SplitLogWhole.Keys - before == {0, 3, 5} by { SplitWholeKeyed(); }
    var r, batch := p.ProcessEvents(SplitLogWhole);
    SplitWholeOutcome(batch);
    x := r.value[0].value.x;
  }

  /** Delivery order matters across calls: a Drag that arrives in a later
      call than a newer Drag of the same component still wins that call, so
      two calls end at x = 3 where one call with the same events ends at x = 5. */
  method SplitDeliveryExample() returns (twoCalls: Coord, oneCall: Coord)
    ensures twoCalls == Some(3.0) && oneCall == Some(5.0)
    ensures twoCalls != oneCall
  {
    twoCalls := DeliverInTwoCalls();
    oneCall := DeliverInOneCall();
  }
}
