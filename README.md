# isotable-2 event-sourcing core in Dafny

This project models the event-sourcing logic of isotable-2, a shared tabletop
where players grab, drag and drop cards. Every change to the table is an
event. The current layout is derived by folding the event log. The model
covers five parts:

- **Logical clock** (`logic_clock.dfy`, module `LogicClock`). Mints
  *snowport ids* from a millisecond counter and a per-millisecond index.
  It fast-forwards past ids that arrive from other players. It is a class
  whose fields are the source's module state. Its methods are proved
  against the spec functions `Take` and `Ingest`.
- **Components** (`component.dfy`, module `Components`). Immutable cards
  with a position, a size and an optional grab record.
- **Events** (`event.dfy`, module `Events`). The four event kinds, the flat
  database record and its decoding. Decoding feeds the record's id into the
  clock. Also the selection of events not yet persisted.
- **Reconciliation engine** (`event_processor.dfy`, module
  `EventProcessor`). `Processor.ProcessEvents` folds the new entries of an
  event log into the cached component map, as follows:
  1. It fails if an old key has disappeared.
  2. It visits the new keys in an unspecified order. It applies Creates at
     once and keeps, per component and per kind, the Grab, Drag and Drop
     with the largest snowport id.
  3. It applies the winners: grabs, then moves, then drops.
  4. It stores the new state only on success.
- **Surface** (`surface.dfy`, module `Surfaces`). The immutable interaction
  record:
  - camera updates;
  - the dedupe-append merge of database events;
  - hit-testing for `grab`;
  - the pointer lookup of `drag` and `drop`. Each of these appends at most
    one event.

Numbers are JavaScript numbers. A coordinate that may be `undefined`, or NaN
after arithmetic on `undefined`, is a `Coord = Option<real>`. Arithmetic on
`None` yields `None`, and every comparison with `None` is false.
`JsNumber.ToInt32` and `JsNumber.TruncRem` model JavaScript's 32-bit `^` and
its truncating `%`.

Several behaviours of the source are kept exactly as written:

- **The composite id (logicClock.ts:28).** `currentTime * 2^16` is
  `(currentTime * 2) XOR 16` in JavaScript. Ordering is therefore proved on
  the `(millisecond, index)` stamp an id is minted from. Counterexample
  lemmas show that the composite itself is neither monotone nor injective.
  Another shows that its "time was negative" error is reachable.
- **The ingest comparison (logicClock.ts:45).** Ingest compares the whole id,
  not its millisecond part, with the current millisecond. Two lemmas show
  the consequences. First, an id that ingest reads as millisecond 1,
  index 7 leaves the index alone at millisecond 1. Second, id 25, minted
  by another clock with the same layout at stamp (1, 7), is ignored, and
  this clock mints 25 again seven takes later.
- **Stale drops (eventProcessor.ts:99-101).** A stale Drop stores
  `undefined` under its component. The snapshot values are
  `Option<Component>` so that this stays visible.
- **The Grab payload.** A Grab built by the surface carries only
  `xOffset`/`yOffset`, while the processor reads a Grab's `x`/`y`.

## Model

| member | source | states |
|---|---|---|
| JsNumber.Sub | src/lib/Surface.ts:159-160 | JavaScript subtraction on possibly-undefined numbers: defined iff both operands are, and then the result plus the subtrahend is the minuend |
| JsNumber.ToInt32 | src/lib/logicClock.ts:28 | the operand of `^` is taken into the signed 32-bit range, congruent to the input modulo 2^32, unchanged when already in range |
| JsNumber.TruncRem | src/lib/logicClock.ts:39 | JavaScript `%`: the remainder takes the sign of the dividend, and for a non-negative dividend it is the ordinary remainder |
| LogicClock.XorSixteen | src/lib/logicClock.ts:28 | `^ 16` flips bit 4: the value moves up by 16 exactly when bit 4 was clear and down by 16 exactly when it was set, the bits above 4 and below 4 and the sign are kept |
| LogicClock.Composite | src/lib/logicClock.ts:28 | the id composed from a millisecond and an index lies within 2^31 + 16 of the index, and for a millisecond in 0..2^30 is twice the millisecond plus the index, moved up by 16 when bit 3 of the millisecond is clear and down by 16 when it is set |
| LogicClock.XorSixteenInvolutive | src/lib/logicClock.ts:28 | applying `^ 16` twice gives the value back |
| LogicClock.Advance | src/lib/logicClock.ts:13-27 | the epoch is set from the first reading; the clock jumps to the elapsed time with index 0 when that is larger; a used-up millisecond (index 256) advances time by exactly 1 with index 0; otherwise time and index are kept; the result index lies in 0..255 and the frontier never moves back |
| LogicClock.Take | src/lib/logicClock.ts:12-36 | takeSnowportId never decreases time and keeps the index in 0..256; the minted stamp has an index in 0..255; the epoch afterwards is the one the first reading sets or the existing one; it succeeds iff the composite is non-negative, and then returns that composite, leaves the clock at the minted millisecond and consumes exactly that index; otherwise it fails with the advanced time, source code and index, leaves the clock at the minted stamp and consumes nothing |
| LogicClock.Ingest | src/lib/logicClock.ts:38-48 | a foreign id whose millisecond part is ahead fast-forwards time, re-bases the epoch and resets the index; otherwise time and epoch are kept and the index only changes when the whole id equals the current millisecond, and then becomes the larger of the old index and the id's index + 1 |
| LogicClock.Run | src/lib/logicClock.ts:12-48 | any sequence of take and ingest calls keeps the clock well-formed (time non-negative, index in 0..256) |
| LogicClock.RunStampsIncrease | src/lib/logicClock.ts:19-34 | whatever timer readings and foreign ids occur, the stamps of successively minted ids strictly increase lexicographically, use indices 0..255, are never below the starting frontier, and time never decreases |
| LogicClock.CompositeNotMonotone | src/lib/logicClock.ts:28 | an id minted at millisecond 8 is smaller than one minted earlier at millisecond 0 |
| LogicClock.CompositeNotInjective | src/lib/logicClock.ts:28 | the distinct stamps (0, 0) and (8, 16) give the same id |
| LogicClock.NegativeTimeReachable | src/lib/logicClock.ts:28-33 | from a well-formed clock at millisecond 2^30 takeSnowportId fails with "time was negative" |
| LogicClock.SameMillisecondIngestIgnored | src/lib/logicClock.ts:39-46 | ingest reads 0x1_0007 as millisecond 1, index 7; at millisecond 1 it leaves the index alone, so the next stamp is below (1, 7) |
| LogicClock.IngestedIdMintedAgain | src/lib/logicClock.ts:28-46 | id 25 is the composite of stamp (1, 7); ingesting it at millisecond 1 changes nothing, and seven takes later this clock mints 25 itself |
| LogicClock.FastForwardKeepsForeignIndex | src/lib/logicClock.ts:41-44 | a fast-forward resets the index to 0, so the next stamp is below the ingested id's stamp |
| LogicClock.Clock.constructor | src/lib/logicClock.ts:1-4 | the clock starts at time 0, epoch unset (-1), index 0 |
| LogicClock.Clock.TakeSnowportId | src/lib/logicClock.ts:12-36 | the fields step from their old values as `Take` says and the returned id or error is `Take`'s; well-formedness is kept |
| LogicClock.Clock.IngestSnowportId | src/lib/logicClock.ts:38-48 | the fields step from their old values as `Ingest` says; well-formedness is kept |
| Components.Make | src/lib/Component.ts:8-32 | every component built gets z 0 and colour 0xffffff from the field initialisers |
| Components.Create | src/lib/Component.ts:34-36 | a created component has the given id and position, width 6.35, height 8.89, z 0, white, and no grab |
| Components.SetPosition | src/lib/Component.ts:38-40 | only x and y change; id, size and grab are kept |
| Components.SetGrab | src/lib/Component.ts:42-49 | only the grab record changes, to exactly the given snowport id, pointer and offsets |
| Components.RemoveGrab | src/lib/Component.ts:51-60 | the grab becomes empty; id, position and size are kept |
| Components.GrabId | src/lib/eventProcessor.ts:99 | `grab?.snowportId ?? -1`: the grab's id, or -1 when not held |
| Components.SettersRebuild | src/lib/Component.ts:12-60 | the setters go through the private constructor, so z and colour return to the initialisers' 0 and white even for a component that had others |
| Components.SetGrabSetPositionCommute | src/lib/Component.ts:38-49 | moving and grabbing touch disjoint fields, so their order does not matter |
| Components.RemoveGrabUndoesSetGrab | src/lib/Component.ts:42-60 | releasing a component that was not held undoes the grab |
| Events.Tag | src/lib/Event.ts:5-10 | each kind has its own string value, and each of the four strings belongs to exactly one kind |
| Events.TypeOf | src/lib/Event.ts:104-124 | each event class carries its own kind in `type`, one kind per class |
| Events.ParseTag | src/lib/Event.ts:5-10 | a string names a kind iff it is one of the four tags, and then names exactly that kind |
| Events.TagRoundTrip | src/lib/Event.ts:5-10 | reading back a kind's tag gives the kind |
| Events.Decode | src/lib/Event.ts:23-67 | an unknown kind tag is an error carrying the tag; otherwise the event has the tag's kind, entity from playspace, the same snowport id, component from componentID, pointer 0 and the record's x and y, and a Grab has offsets 0 |
| Events.ToRecord | src/lib/Event.ts:82-89 | an upsert row has playspace 1, copies id, component, kind and x, y, and decodes back to the event with entity 1, pointer 0 and zero offsets |
| Events.IdsOf | src/lib/Event.ts:75-78 | the id set holds the snowport id of every database event |
| Events.IdsOfOnly | src/lib/Event.ts:75-78 | every id in the set is the snowport id of some database event |
| Events.IdsOfAppend | src/lib/Event.ts:75-78 | the id set of a concatenation is the union of the two id sets, so adding events one at a time builds the set |
| Events.Upserts | src/lib/Event.ts:80-91 | never more rows than events; every row has playspace 1 and an id not in the database; every event whose id is not in the database has its row |
| Events.Unseen | src/lib/Event.ts:80-91 | the kept events are exactly the input events whose id is not in the set, never more than the input |
| Events.UnseenAppend | src/lib/Event.ts:80-91 | the filter distributes over concatenation, so it keeps input order |
| Events.Records | src/lib/Event.ts:82-89 | one row per event, in order, each the event's upsert row |
| Events.CreateDatabaseUpserts | src/lib/Event.ts:71-93 | the rows are, in input order, those of the events whose snowport id no database event has; never more rows than events; every row has playspace 1 |
| Events.ProcessDatabaseEvent | src/lib/Event.ts:21-22 | the record's id is ingested into the clock (also when the kind is unknown) and the result is the record's decoding |
| EventProcessor.WinOf | src/lib/eventProcessor.ts:45-71 | the running-best tuple carries the event's snowport id; a Grab's pointer, x and y; a Drag's x and y with pointer 0; a Drop's pointer with coordinates 0; a Create gives the -1 default |
| EventProcessor.Offer | src/lib/eventProcessor.ts:47-70 | offering an event gives its component a running best and keeps every other component's; for a Grab, Drag or Drop the new best's id is at least the old best's (or -1) and the event's; the event replaces the best exactly when its id is strictly larger, otherwise the old best stays, or the default `[-1, 0, [0, 0]]` when there was none |
| EventProcessor.WinnersOffer | src/lib/eventProcessor.ts:45-71 | offering a new Grab, Drag or Drop keeps every running best the largest-id event of its kind and component (or the -1 default) |
| EventProcessor.CreatesStep | src/lib/eventProcessor.ts:39-44 | applying a new Create keeps the components equal to the old ones plus a component made by some Create of the visited keys |
| EventProcessor.Visit | src/lib/eventProcessor.ts:37-72 | one iteration over a new key keeps the collected components and running bests correct for the keys visited |
| EventProcessor.CollectBatch | src/lib/eventProcessor.ts:33-73 | after visiting all new keys in any order, each component's grab, move and drop are the largest-id events of that kind, and the components are the old ones plus the ones the Creates made |
| EventProcessor.CreateOf | src/lib/eventProcessor.ts:39-44 | a Create makes a well-formed component with the Create's component id, x and y, the default size and no grab |
| EventProcessor.DropOutcome | src/lib/eventProcessor.ts:93-102 | a Drop releases the component iff the held grab id, or -1, is smaller than the Drop's: the released component has no grab, keeps id, position and size, is well-formed, and for a well-formed input is the input with only the grab cleared; otherwise the entry becomes undefined |
| EventProcessor.WithGrabs | src/lib/eventProcessor.ts:75-82 | applying grabs keeps the keys and which components exist, leaves every entry not grabbed unchanged, keeps id, position and size, gives each grabbed component exactly its winning grab, rebuilds it well-formed, and keeps well-formed entries well-formed |
| EventProcessor.WithMoves | src/lib/eventProcessor.ts:84-91 | applying moves keeps the keys and which components exist, leaves every entry not moved unchanged, keeps the id, grab and size of a moved one, places it at its winning Drag's x and y, rebuilds it well-formed, and keeps well-formed entries well-formed |
| EventProcessor.WithDrops | src/lib/eventProcessor.ts:93-103 | applying drops keeps the keys, leaves every entry not dropped unchanged, keeps id, position and size of a surviving one, makes a dropped entry undefined exactly when its grab id, or -1, is not below the Drop's, and clears the grab of every dropped entry that survives and rebuilds it well-formed |
| EventProcessor.ApplyWinners | src/lib/eventProcessor.ts:75-103 | fails with the grabbed, moved or dropped "did not yet exist" error, in that order of checking, iff a winner targets a missing component; on success keeps the keys, leaves untouched components alone, places each moved component at its Drag's x and y, sets the winning grab on components not dropped, and makes a dropped entry undefined exactly when its grab is not older than the Drop, clearing the grab otherwise; a component not dropped exists afterwards iff it did before, a moved one that is not dropped still exists, sizes are kept, a component not moved keeps its x and y, and one neither grabbed nor dropped keeps its grab; every touched component that survives is well-formed (z 0, white) and a well-formed component stays well-formed |
| EventProcessor.ApplyGrabs | src/lib/eventProcessor.ts:75-82 | the grab loop, in any order, fails iff a grabbed component is missing and otherwise sets every winning grab |
| EventProcessor.ApplyMoves | src/lib/eventProcessor.ts:84-91 | the move loop, in any order, fails iff a moved component is missing and otherwise moves every component |
| EventProcessor.ApplyDrops | src/lib/eventProcessor.ts:93-103 | the drop loop, in any order, fails iff a dropped component is missing and otherwise applies every Drop |
| EventProcessor.Settle | src/lib/eventProcessor.ts:75-103 | the three loops together compute the outcome `ApplyWinners` describes |
| EventProcessor.WinnerUnique | src/lib/eventProcessor.ts:45-71 | when the log is keyed by snowport id, a component has only one possible winner per kind |
| EventProcessor.WinnersUnique | src/lib/eventProcessor.ts:45-71 | under the same condition the running bests of a kind are determined by the log and the keys |
| EventProcessor.CollectedUnique | src/lib/eventProcessor.ts:37-73 | when the log is keyed by snowport id and no component has two Creates among the new keys, every visiting order collects the same batch |
| EventProcessor.Processor.constructor | src/lib/eventProcessor.ts:12-13 | the cache starts with an empty log and no components |
| EventProcessor.Processor.Reset | src/lib/eventProcessor.ts:15-18 | resetEvents empties both the log and the components |
| EventProcessor.Processor.ProcessEvents | src/lib/eventProcessor.ts:20-109 | fails with "events were removed" iff an old key is missing; otherwise the result is what the winners of the new keys give on the cached components; any failure leaves the cache unchanged; success stores the new log and returns the stored components |
| EventProcessor.CreateThenGrabExample | src/lib/eventProcessor.test.ts:15-34 | a fresh processor given a Create and a Grab of one component returns one entry |
| EventProcessor.CreateGrabDragExample | src/lib/eventProcessor.test.ts:36-66 | a fresh processor given a Create, a Grab and a Drag to x = 10 returns the component at x = 10 |
| EventProcessor.SplitDeliveryExample | src/lib/eventProcessor.ts:33-91 | a Create and a Drag (id 5) to x = 5, then in a second call an older Drag (id 3) to x = 3, end at x = 3; the same three events in one call end at x = 5 |
| Surfaces.Create | src/lib/Surface.ts:39-51 | a new surface has the given camera and empty event lists |
| Surfaces.SetCamera | src/lib/Surface.ts:53-62 | only the camera changes |
| Surfaces.UpdateCamera | src/lib/Surface.ts:64-66 | only the camera changes, to the function applied to the old camera |
| Surfaces.AddEvent | src/lib/Surface.ts:87-96 | exactly one event is appended at the end; the earlier events, prior events and camera are kept |
| Surfaces.SetDatabaseEvents | src/lib/Surface.ts:68-85 | the events become the old events followed, in input order, by the incoming events whose id none of the old events has; camera and prior events are kept |
| Surfaces.MergeKeepsPrefix | src/lib/Surface.ts:68-85 | the old events stay a prefix, the merge adds at most the incoming events, only ones with new ids, and every incoming event with a new id |
| Surfaces.MergeKeepsBatchDuplicates | src/lib/Surface.ts:69-75 | two incoming events that share an id none of the old events has are both appended, since the id set is computed once |
| Surfaces.MergeOwnEventsUnchanged | src/lib/Surface.ts:68-85 | merging events whose ids are all present appends nothing |
| Surfaces.Contains | src/lib/Surface.ts:109-116 | the point hits a component iff its position is defined and the point is within half the width horizontally and half the height vertically of it; nothing with a negative size is ever hit |
| Surfaces.TopmostUnique | src/lib/Surface.ts:108-121 | at most one component is the highest hit that is first among equals |
| Surfaces.TopmostHit | src/lib/Surface.ts:106-121 | the hit-test loop finds no component iff none contains the point, and otherwise one that contains it, that no containing component is above, and that every containing component before it is below |
| Surfaces.Grab | src/lib/Surface.ts:98-135 | when some component contains the point, exactly one Grab is appended, by this pointer with the fresh id, for the topmost hit, with offsets equal to the point minus its position and no x or y; otherwise only the camera changes |
| Surfaces.HeldBy | src/lib/Surface.ts:145 | a component is held by a pointer only when it has a grab, and then exactly when the grab's pointer is that pointer |
| Surfaces.FindHeld | src/lib/Surface.ts:145 | the first component whose grab has this pointer, or none iff no component has one |
| Surfaces.Drag | src/lib/Surface.ts:137-165 | when a component is held by the pointer, exactly one Drag of it is appended, at the point minus the grab offset (undefined where the offset is); otherwise only the camera changes |
| Surfaces.Drop | src/lib/Surface.ts:167-181 | when a component is held by the pointer, exactly one Drop of it is appended with no coordinates; otherwise only the camera changes |
| Surfaces.DragDropAgree | src/lib/Surface.ts:144-180 | drag and drop append an event exactly when some component is held by the pointer, and then for the same component |
| Surfaces.GrabPayloadMismatch | src/lib/Surface.ts:123-131 | the Grab the surface appends reaches the processor's running best with undefined x and y, because the processor reads `x`/`y` and not the offsets |

## Left out

- `src/lib/Camera.ts` is not part of this model. `getWorldPosition`,
  `addPointer`, `updatePointer` and `removePointer` become parameters: the
  world position of the pointer and the camera the source would compute.
  The camera is a type parameter. Surface.create's default camera is a
  parameter too.
- `Surface.render` and the THREE scene, meshes and material are rendering
  through a library outside this model. So is render's copying of `events`
  into `priorEvents`.
- `src/lib/SupabaseSurface.ts` and `src/routes/index.tsx` are I/O and UI
  wiring, not part of this model.
- `performance.now()` is the integer parameter `now`. The two readings in
  `takeSnowportId` are taken as equal. Fractional milliseconds are not
  modelled, so the clock's time stays integral.
- JavaScript's 53-bit precision is not modelled: integers are unbounded
  apart from the explicit 32-bit conversion of `^`. `null` and
  `undefined` are not distinguished.
- `Surface.ts` calls `processEvents(this.events, this.events)` with two
  arguments and destructures a tuple. `eventProcessor.ts:20` takes a single
  `Map` and returns a `Map`. The model therefore takes the components that
  `grab`, `drag` and `drop` inspect as a parameter: a sequence in iteration
  order.
- `takeSnowportId` inside `grab`, `drag` and `drop` is the parameter
  `freshId`. Its "time was negative" error is modelled on the clock but is
  not propagated through the surface.
- EventProcessor.Processor.ProcessEvents: the iteration order of Immutable
  sets is left unspecified (any order is allowed). `CollectedUnique` fixes
  the result only when the log is keyed by snowport id and no component
  has two Creates among the new keys. Otherwise the surviving Create
  depends on that order.
- Convergence across separate calls does not hold, and the model keeps it
  that way. The winners are chosen within one call's new events only, as
  the source does. `SplitDeliveryExample` shows two deliveries of the same
  events ending at different positions.
- JavaScript numbers are modelled as exact reals, not IEEE-754 doubles.
  Rounding is not modelled in these places:
  - the hit test at `Surface.ts:109-116`;
  - the subtraction at `Surface.ts:159-160`;
  - the default size 6.35 by 8.89, which is exact here.
  `JsNumber.Sub`'s "result plus subtrahend is the minuend" therefore holds
  over the reals only.
