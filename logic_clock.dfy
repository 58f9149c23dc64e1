/** The logical clock that mints and ingests snowport ids.

    A clock is the triple (currentTime, offsetTime, nextIndex): the current
    millisecond, the process-relative epoch taken from the first reading of
    the monotonic timer (negative while unset), and the next per-millisecond
    index to hand out.  The monotonic timer is not read here: every operation
    takes its reading as the integer parameter `now`.

    The composite id is computed exactly as the source writes it.  There `^`
    is exclusive-or on 32-bit integers and binds looser than `*`, so the
    millisecond field is `ToInt32(currentTime * 2) ^ 16`, not a shift by 16.
    The ordering guarantees are therefore stated on the (millisecond, index)
    pair that an id is minted from, which is what the clock keeps increasing;
    the lemmas at the end of the module show that the composite itself is
    neither monotone nor injective, and that its "negative" check is
    reachable. */
module LogicClock {
  import opened Wrappers
  import opened JsNumber

  /** The source identifier; fixed to 0 in the source. */
  const SourceCode: int := 0
  /** Ids available per millisecond before the clock is rolled forward. */
  const IdsPerMillisecond: int := 256
  /** `2**16`: the divisor that extracts the millisecond part of an id. */
  const TimeDivisor: int := 0x1_0000

  datatype ClockState = ClockState(currentTime: int, offsetTime: int, nextIndex: int)

  /** The state the module starts in. */
  const Initial: ClockState := ClockState(0, -1, 0)

  /** What every reachable clock satisfies: time is never negative and the
      next index lies in 0..256 (256 meaning "this millisecond is used up"). */
  predicate ClockWellFormed(s: ClockState)
  {
    s.currentTime >= 0 && 0 <= s.nextIndex <= IdsPerMillisecond
  }

  /** A (millisecond, index) pair. */
  datatype Stamp = Stamp(time: int, index: int)

  /** Strict lexicographic order on stamps. */
  predicate Before(a: Stamp, b: Stamp)
  {
    a.time < b.time || (a.time == b.time && a.index < b.index)
  }

  /** Non-strict lexicographic order on stamps. */
  predicate AtMost(a: Stamp, b: Stamp)
  {
    a.time < b.time || (a.time == b.time && a.index <= b.index)
  }

  /** The smallest stamp the clock may still hand out. */
  function Frontier(s: ClockState): Stamp
  {
    Stamp(s.currentTime, s.nextIndex)
  }

  datatype ClockError = NegativeTime(currentTime: int, sourceCode: int, nextIndex: int)

  /** `v ^ 16` on a 32-bit value: flips bit 4 and keeps every other bit. */
  function XorSixteen(v: int): (r: int)
    ensures (v / 16) % 2 == 0 <==> r == v + 16
    ensures (v / 16) % 2 == 1 <==> r == v - 16
    ensures (r / 16) % 2 != (v / 16) % 2
    ensures r / 32 == v / 32 && r % 16 == v % 16
    ensures (v < 0) == (r < 0)
  {
    if (v / 16) % 2 == 1 then v - 16 else v + 16
  }

  /** The composite id of line 28, as written: `(t * 2 ^ 16) + (SourceCode * 2**8) + i`. */
  function Composite(t: int, i: int): (r: int)
    ensures -TwoTo31 - 16 + i <= r < TwoTo31 + 16 + i
    ensures 0 <= t < TwoTo31 / 2 ==> r == 2 * t + (if (t / 8) % 2 == 0 then 16 else -16) + i
  {
    XorSixteen(ToInt32(t * 2)) + SourceCode * 256 + i
  }

  /** The state just before the id is composed: the epoch is set on first
      use, the clock jumps to the elapsed time when that is larger (index
      back to 0), and a used-up millisecond is rolled forward by one. */
  function Advance(s: ClockState, now: int): (a: ClockState)
    requires ClockWellFormed(s)
    ensures 0 <= a.nextIndex < IdsPerMillisecond
    ensures a.currentTime >= s.currentTime
    ensures AtMost(Frontier(s), Frontier(a))
    ensures a.offsetTime == if s.offsetTime < 0 then now else s.offsetTime
    ensures now - a.offsetTime > s.currentTime ==>
              a.currentTime == now - a.offsetTime && a.nextIndex == 0
    ensures now - a.offsetTime <= s.currentTime && s.nextIndex >= IdsPerMillisecond ==>
              a.currentTime == s.currentTime + 1 && a.nextIndex == 0
    ensures now - a.offsetTime <= s.currentTime && s.nextIndex < IdsPerMillisecond ==>
              a.currentTime == s.currentTime && a.nextIndex == s.nextIndex
  {
    var offset := if s.offsetTime < 0 then now else s.offsetTime;
    var elapsed := now - offset;
    var jumped := if elapsed > s.currentTime then ClockState(elapsed, offset, 0)
                  else s.(offsetTime := offset);
    if jumped.nextIndex >= IdsPerMillisecond then jumped.(currentTime := jumped.currentTime + 1, nextIndex := 0)
    else jumped
  }

  /** The stamp an id minted at `now` is built from. */
  function MintedStamp(s: ClockState, now: int): Stamp
    requires ClockWellFormed(s)
  {
    Frontier(Advance(s, now))
  }

  datatype TakeOutcome = TakeOutcome(clock: ClockState, result: Result<int, ClockError>)

  /** takeSnowportId: the new clock and the id, or the "time was negative"
      error (which leaves the advanced clock in place, index not consumed). */
  function Take(s: ClockState, now: int): (o: TakeOutcome)
    requires ClockWellFormed(s)
    ensures ClockWellFormed(o.clock)
    ensures o.clock.currentTime >= s.currentTime
    ensures 0 <= MintedStamp(s, now).index < IdsPerMillisecond
    ensures AtMost(Frontier(s), MintedStamp(s, now))
    ensures o.result.Ok? <==> Composite(MintedStamp(s, now).time, MintedStamp(s, now).index) >= 0
    ensures o.result.Ok? ==>
              o.result.value == Composite(MintedStamp(s, now).time, MintedStamp(s, now).index)
              && Before(MintedStamp(s, now), Frontier(o.clock))
              && o.clock.nextIndex == MintedStamp(s, now).index + 1
    ensures o.result.Err? ==>
              o.result.error == NegativeTime(MintedStamp(s, now).time, SourceCode, MintedStamp(s, now).index)
              && Frontier(o.clock) == MintedStamp(s, now)
    ensures s.offsetTime < 0 ==> o.clock.offsetTime == now
    ensures o.clock.offsetTime == Advance(s, now).offsetTime
    ensures o.result.Ok? ==> o.clock.currentTime == MintedStamp(s, now).time
  {
    var a := Advance(s, now);
    var time := Composite(a.currentTime, a.nextIndex);
    if time < 0 then TakeOutcome(a, Err(NegativeTime(a.currentTime, SourceCode, a.nextIndex)))
    else TakeOutcome(a.(nextIndex := a.nextIndex + 1), Ok(time))
  }

  /** ingestSnowportId: fast-forward past a foreign id's millisecond, or, when
      the whole id equals the current millisecond (sic), raise the index. */
  function Ingest(s: ClockState, id: int, now: int): (r: ClockState)
    requires ClockWellFormed(s)
    ensures ClockWellFormed(r)
    ensures r.currentTime >= s.currentTime
    ensures AtMost(Frontier(s), Frontier(r))
    ensures id / TimeDivisor > s.currentTime ==>
              r == ClockState(id / TimeDivisor, now - id / TimeDivisor, 0)
    ensures id / TimeDivisor <= s.currentTime ==>
              r.currentTime == s.currentTime && r.offsetTime == s.offsetTime && r.nextIndex >= s.nextIndex
    ensures id / TimeDivisor <= s.currentTime ==>
              (r.nextIndex != s.nextIndex <==> id == s.currentTime && id % IdsPerMillisecond + 1 > s.nextIndex)
    ensures id / TimeDivisor <= s.currentTime && id == s.currentTime ==>
              r.nextIndex >= id % IdsPerMillisecond + 1
    ensures id / TimeDivisor <= s.currentTime ==>
              r.nextIndex == s.nextIndex || r.nextIndex == id % IdsPerMillisecond + 1
  {
    var indexPart := TruncRem(id, IdsPerMillisecond);
    var timePart := id / TimeDivisor;
    if timePart > s.currentTime then ClockState(timePart, now - timePart, 0)
    else if id == s.currentTime then
      s.(nextIndex := if s.nextIndex >= indexPart + 1 then s.nextIndex else indexPart + 1)
    else s
  }

  /** One call into the clock. */
  datatype ClockOp = TakeOp(now: int) | IngestOp(id: int, now: int)

  datatype RunOutcome = RunOutcome(clock: ClockState, stamps: seq<Stamp>)

  /** Applies calls in order; `stamps` are the stamps of the ids successfully
      minted, in minting order. */
  function Run(s: ClockState, ops: seq<ClockOp>): (r: RunOutcome)
    requires ClockWellFormed(s)
    ensures ClockWellFormed(r.clock)
    decreases |ops|
  {
    if ops == [] then RunOutcome(s, [])
    else match ops[0]
      case TakeOp(now) =>
        var o := Take(s, now);
        var rest := Run(o.clock, ops[1..]);
        RunOutcome(rest.clock, (if o.result.Ok? then [MintedStamp(s, now)] else []) + rest.stamps)
      case IngestOp(id, now) =>
        Run(Ingest(s, id, now), ops[1..])
  }

  predicate StrictlyIncreasing(ss: seq<Stamp>)
  {
    forall i, j :: 0 <= i < j < |ss| ==> Before(ss[i], ss[j])
  }

  lemma AtMostBeforeTrans(a: Stamp, b: Stamp, c: Stamp)
    requires Before(a, b) && AtMost(b, c)
    ensures Before(a, c)
  {
  }

  lemma AtMostTrans(a: Stamp, b: Stamp, c: Stamp)
    requires AtMost(a, b) && AtMost(b, c)
    ensures AtMost(a, c)
  {
  }

  /** Whatever the timer readings and whatever foreign ids are ingested in
      between, the stamps of successive minted ids strictly increase, each
      uses an index in 0..255, none lies below the starting frontier, and the
      clock's frontier never moves back. */
  lemma {:induction false} RunStampsIncrease(s: ClockState, ops: seq<ClockOp>)
    requires ClockWellFormed(s)
    ensures StrictlyIncreasing(Run(s, ops).stamps)
    ensures forall i :: 0 <= i < |Run(s, ops).stamps| ==>
              0 <= Run(s, ops).stamps[i].index < IdsPerMillisecond
              && AtMost(Frontier(s), Run(s, ops).stamps[i])
    ensures AtMost(Frontier(s), Frontier(Run(s, ops).clock))
    ensures Run(s, ops).clock.currentTime >= s.currentTime
    decreases |ops|
  {
    if ops != [] {
      match ops[0]
      case TakeOp(now) =>
        var o := Take(s, now);
        RunStampsIncrease(o.clock, ops[1..]);
        var rest := Run(o.clock, ops[1..]);
        var m := MintedStamp(s, now);
        AtMostTrans(Frontier(s), Frontier(o.clock), Frontier(rest.clock));
        forall i | 0 <= i < |rest.stamps|
          ensures AtMost(Frontier(s), rest.stamps[i])
        {
          AtMostTrans(Frontier(s), Frontier(o.clock), rest.stamps[i]);
        }
        if o.result.Ok? {
          forall i | 0 <= i < |rest.stamps|
            ensures Before(m, rest.stamps[i])
          {
            AtMostBeforeTrans(m, Frontier(o.clock), rest.stamps[i]);
          }
          assert Run(s, ops).stamps == [m] + rest.stamps;
        } else {
          assert Run(s, ops).stamps == rest.stamps;
        }
      case IngestOp(id, now) =>
        var s' := Ingest(s, id, now);
        RunStampsIncrease(s', ops[1..]);
        var rest := Run(s', ops[1..]);
        AtMostTrans(Frontier(s), Frontier(s'), Frontier(rest.clock));
        forall i | 0 <= i < |rest.stamps|
          ensures AtMost(Frontier(s), rest.stamps[i])
        {
          AtMostTrans(Frontier(s), Frontier(s'), rest.stamps[i]);
        }
    }
  }

  /** Exclusive-or with 16 undoes itself. */
  lemma XorSixteenInvolutive(v: int)
    ensures XorSixteen(XorSixteen(v)) == v
  {
  }

  /** The composite is not monotone in the stamp: an id minted at
      millisecond 8 is smaller than one minted at millisecond 0. */
  lemma CompositeNotMonotone()
    ensures Before(Stamp(0, 0), Stamp(8, 0))
    ensures Composite(8, 0) < Composite(0, 0)
  {
  }

  /** Two different stamps can compose to the same id. */
  lemma CompositeNotInjective()
    ensures Stamp(0, 0) != Stamp(8, 16)
    ensures Composite(0, 0) == Composite(8, 16)
  {
  }

  /** The defensive "time was negative" error is reachable: once the
      millisecond counter reaches 2^30 the doubled time wraps to a negative
      32-bit value. */
  lemma NegativeTimeReachable()
    ensures ClockWellFormed(ClockState(0x4000_0000, 0, 0))
    ensures Take(ClockState(0x4000_0000, 0, 0), 0).result.Err?
  {
  }

  /** Ingest reads 0x1_0007 as millisecond 1, index 7 (its own decoding,
      logicClock.ts:39-40).  At millisecond 1 that id does not raise the index,
      because the whole id (not its millisecond part) is compared with the
      current millisecond: the next stamp minted is below (1, 7). */
  lemma SameMillisecondIngestIgnored()
    ensures ClockWellFormed(ClockState(1, 0, 0))
    ensures 0x1_0007 / TimeDivisor == 1 && 0x1_0007 % IdsPerMillisecond == 7
    ensures Ingest(ClockState(1, 0, 0), 0x1_0007, 0) == ClockState(1, 0, 0)
    ensures Before(MintedStamp(Ingest(ClockState(1, 0, 0), 0x1_0007, 0), 0), Stamp(1, 7))
  {
  }

  /** Two clocks with the same source code share one id layout, so the id
      25 another player minted at stamp (1, 7) can arrive here.  Ingesting it
      at millisecond 1 changes nothing (25 is neither ahead in its millisecond
      part nor equal to 1), so seven takes later this clock mints the very
      same id 25. */
  lemma IngestedIdMintedAgain()
    ensures Composite(1, 7) == 25
    ensures Ingest(ClockState(1, 0, 0), 25, 0) == ClockState(1, 0, 0)
    ensures forall k :: 0 <= k < 7 ==>
              Take(ClockState(1, 0, k), 0).clock == ClockState(1, 0, k + 1)
              && Take(ClockState(1, 0, k), 0).result.Ok?
    ensures Take(ClockState(1, 0, 7), 0).result == Ok(25)
  {
    forall k | 0 <= k < 7
      ensures Take(ClockState(1, 0, k), 0).clock == ClockState(1, 0, k + 1)
              && Take(ClockState(1, 0, k), 0).result.Ok?
    {
      assert Composite(1, k) == 18 + k;
    }
  }

  /** A fast-forward resets the index to 0 rather than past the foreign
      index, so the next stamp minted (millisecond 5, index 0) is below the
      ingested id's stamp (millisecond 5, index 7). */
  lemma FastForwardKeepsForeignIndex()
    ensures Ingest(ClockState(0, 0, 0), 5 * TimeDivisor + 7, 0) == ClockState(5, -5, 0)
    ensures Before(MintedStamp(Ingest(ClockState(0, 0, 0), 5 * TimeDivisor + 7, 0), 0), Stamp(5, 7))
  {
  }

  /** The module state of the clock. */
  class Clock {
    var currentTime: int
    var offsetTime: int
    var nextIndex: int

    function State(): ClockState
      reads this
    {
      ClockState(currentTime, offsetTime, nextIndex)
    }

    ghost predicate Valid()
      reads this
    {
      ClockWellFormed(State())
    }

    constructor ()
      ensures Valid() && State() == Initial
    {
      currentTime, offsetTime, nextIndex := 0, -1, 0;
    }

    /** takeSnowportId, with `now` the timer reading. */
    method TakeSnowportId(now: int) returns (r: Result<int, ClockError>)
      requires Valid()
      modifies this
      ensures Valid()
      ensures State() == Take(old(State()), now).clock
      ensures r == Take(old(State()), now).result
    {
      if offsetTime < 0 {
        offsetTime := now;
      }
      var elapsed := now - offsetTime;
      if elapsed > currentTime {
        currentTime := elapsed;
        nextIndex := 0;
      }
      if nextIndex >= IdsPerMillisecond {
        currentTime := currentTime + 1;
        nextIndex := 0;
      }
      var time := Composite(currentTime, nextIndex);
      if time < 0 {
        return Err(NegativeTime(currentTime, SourceCode, nextIndex));
      }
      nextIndex := nextIndex + 1;
      return Ok(time);
    }

    /** ingestSnowportId, with `now` the timer reading. */
    method IngestSnowportId(id: int, now: int)
      requires Valid()
      modifies this
      ensures Valid()
      ensures State() == Ingest(old(State()), id, now)
    {
      var indexPart := TruncRem(id, IdsPerMillisecond);
      var timePart := id / TimeDivisor;
      if timePart > currentTime {
        currentTime := timePart;
        offsetTime := now - currentTime;
        nextIndex := 0;
      } else if id == currentTime {
        nextIndex := if nextIndex >= indexPart + 1 then nextIndex else indexPart + 1;
      }
    }
  }
}
