/**
 A driver session: any sequence of public driver calls after construction,
 with the values they return discarded. This is where the pulse total's
 invariant lives: it is always the sum of the pulse deltas of the blocks
 read since the last reset (or since the session began, on top of the
 starting total), so without a reset it never decreases.
 */
module Session {
  import opened Bits
  import opened RegisterMap
  import opened I2cBus
  import RadSens

  /** One public call on the driver. */
  datatype Command =
    | IsValid
    | GetRadiationData
    | GetRadiationLevelDynamic
    | GetRadiationLevelFixed
    | GetPulseCount
    | ResetPulseCount
    | GetDeviceId
    | GetFirmwareVersion
    | GetDeviceAddress
    | SetDeviceAddress(boardAddress: int)
    | GetHighVoltageGeneratorState
    | SetHighVoltageGeneratorState(hvState: int)
    | GetCalibrationValue
    | SetCalibrationValue(calibration: int)
    | GetLedIndicationState
    | SetLedIndicationState(ledState: int)
  {
    /** Calls that refresh the register block (and so the pulse total). */
    predicate Reads() {
      !(ResetPulseCount? || SetDeviceAddress? || SetHighVoltageGeneratorState?
        || SetCalibrationValue? || SetLedIndicationState?)
    }

    /** The bytes a call sends, in order. */
    function Writes(): seq<Write> {
      match this
      case SetDeviceAddress(v) => [Write(0x10, v % 256)]
      case SetHighVoltageGeneratorState(v) => [Write(0x11, v % 256)]
      case SetCalibrationValue(v) => [Write(0x12, v % 256), Write(0x13, (v / 256) % 256)]
      case SetLedIndicationState(v) => [Write(0x14, v % 256)]
      case _ => []
    }
  }

  /** The driver after one call; a reading call fails when the board does
      not answer. Every reading call leaves the driver exactly as one
      refresh does (`QueryIsRefresh`), so a reading call is that refresh. */
  function Step(b: RadSens.Board, c: Command): (r: Result<RadSens.Board>)
    ensures r.Ok? <==> (!c.Reads() || |b.bus.replies| > 0)
    ensures r.Ok? && c.Reads() ==> RadSens.Refreshed(b, r.value)
    ensures r.Ok? && c.ResetPulseCount? ==> r.value == b.(pulseCount := 0)
    ensures r.Ok? && !c.Reads() && !c.ResetPulseCount? ==> RadSens.Wrote(b, r.value, c.Writes())
  {
    if c.Reads() then RadSens.ReadRegisters(b)
    else if c.ResetPulseCount? then Ok(RadSens.ResetPulseCount(b))
    else Ok(Configure(b, c))
  }

  /** One refresh determines the driver state completely. */
  lemma RefreshedUnique(b: RadSens.Board, x: RadSens.Board, y: RadSens.Board)
    requires RadSens.Refreshed(b, x) && RadSens.Refreshed(b, y)
    ensures x == y
  {
  }

  /** Each reading call of the driver leaves it exactly as `Step` says: the
      board after one refresh, or the same failure. */
  lemma QueryIsRefresh(b: RadSens.Board, c: Command)
    requires c.Reads()
    ensures Query(b, c) == Step(b, c)
  {
    if Query(b, c).Ok? {
      RefreshedUnique(b, Query(b, c).value, Step(b, c).value);
    }
  }

  /** The driver after a reading call, and the value it returns dropped. */
  function Query(b: RadSens.Board, c: Command): (r: Result<RadSens.Board>)
    requires c.Reads()
    ensures r.Ok? <==> |b.bus.replies| > 0
    ensures r.Ok? ==> RadSens.Refreshed(b, r.value)
  {
    match c
    case IsValid => var a :- RadSens.IsValid(b); Ok(a.board)
    case GetRadiationData => var a :- RadSens.GetRadiationData(b); Ok(a.board)
    case GetRadiationLevelDynamic => var a :- RadSens.GetRadiationLevelDynamic(b); Ok(a.board)
    case GetRadiationLevelFixed => var a :- RadSens.GetRadiationLevelFixed(b); Ok(a.board)
    case GetPulseCount => var a :- RadSens.GetPulseCount(b); Ok(a.board)
    case GetDeviceId => var a :- RadSens.GetDeviceId(b); Ok(a.board)
    case GetFirmwareVersion => var a :- RadSens.GetFirmwareVersion(b); Ok(a.board)
    case GetDeviceAddress => var a :- RadSens.GetDeviceAddress(b); Ok(a.board)
    case GetHighVoltageGeneratorState => var a :- RadSens.GetHighVoltageGeneratorState(b); Ok(a.board)
    case GetCalibrationValue => var a :- RadSens.GetCalibrationValue(b); Ok(a.board)
    case GetLedIndicationState => var a :- RadSens.GetLedIndicationState(b); Ok(a.board)
  }

  function Configure(b: RadSens.Board, c: Command): (r: RadSens.Board)
    requires !c.Reads() && !c.ResetPulseCount?
    ensures RadSens.Wrote(b, r, c.Writes())
  {
    match c
    case SetDeviceAddress(v) => RadSens.SetDeviceAddress(b, v)
    case SetHighVoltageGeneratorState(v) => RadSens.SetHighVoltageGeneratorState(b, v)
    case SetCalibrationValue(v) => RadSens.SetCalibrationValue(b, v)
    case SetLedIndicationState(v) => RadSens.SetLedIndicationState(b, v)
  }

  /** The driver after the calls `cs`, in order; the first failing call
      ends the session. */
  function Run(b: RadSens.Board, cs: seq<Command>): Result<RadSens.Board>
    decreases |cs|
  {
    if cs == [] then Ok(b)
    else
      var before :- Run(b, cs[..|cs| - 1]);
      Step(before, cs[|cs| - 1])
  }

  /** Number of reading calls in `cs`. */
  function ReadCount(cs: seq<Command>): nat
    decreases |cs|
  {
    if cs == [] then 0
    else ReadCount(cs[..|cs| - 1]) + (if cs[|cs| - 1].Reads() then 1 else 0)
  }

  predicate HasReset(cs: seq<Command>) {
    exists i :: 0 <= i < |cs| && cs[i].ResetPulseCount?
  }

  /** Number of reading calls after the last reset in `cs` (all of them if
      there is none). */
  function ReadsSinceReset(cs: seq<Command>): (n: nat)
    ensures n <= ReadCount(cs)
    decreases |cs|
  {
    if cs == [] then 0
    else if cs[|cs| - 1].ResetPulseCount? then 0
    else ReadsSinceReset(cs[..|cs| - 1]) + (if cs[|cs| - 1].Reads() then 1 else 0)
  }

  /** Every byte `cs` sends, in call order. */
  function WritesOf(cs: seq<Command>): seq<Write>
    decreases |cs|
  {
    if cs == [] then [] else WritesOf(cs[..|cs| - 1]) + cs[|cs| - 1].Writes()
  }

  /** Sum of the pulse deltas of a run of register blocks. */
  function SumDeltas(blocks: seq<RegisterBlock>): nat
    decreases |blocks|
  {
    if blocks == [] then 0 else SumDeltas(blocks[..|blocks| - 1]) + PulseDelta(blocks[|blocks| - 1])
  }

  /** One call's effect on each part of the driver, field by field. */
  lemma StepFacts(before: RadSens.Board, c: Command)
    ensures Step(before, c).Ok? <==> (!c.Reads() || |before.bus.replies| > 0)
    ensures Step(before, c).Ok? ==>
      var after := Step(before, c).value;
      && after.pulseCount == (if c.ResetPulseCount? then 0
                              else if c.Reads() then before.pulseCount + PulseDelta(before.bus.replies[0])
                              else before.pulseCount)
      && after.bus.replies == (if c.Reads() then before.bus.replies[1..] else before.bus.replies)
      && after.bus.log == before.bus.log + c.Writes()
      && after.registers == (if c.Reads() then before.bus.replies[0] else before.registers)
      && after.address == before.address
  {
    if c.ResetPulseCount? {
      assert c.Writes() == [];
    } else if c.Reads() {
      assert c.Writes() == [];
    }
  }

  /** A session is its shorter prefix followed by its last call. */
  lemma RunLast(b: RadSens.Board, cs: seq<Command>)
    requires cs != []
    ensures Run(b, cs) == if Run(b, cs[..|cs| - 1]).Ok? then Step(Run(b, cs[..|cs| - 1]).value, cs[|cs| - 1])
                          else Run(b, cs[..|cs| - 1])
  {
  }

  /** `now` is `start` after the calls `cs` as far as the bus and the
      register block go: each reading call consumed one reply, in order;
      the writes reached the log in call order; the block is the last reply
      consumed. */
  predicate Consumed(start: RadSens.Board, cs: seq<Command>, now: RadSens.Board) {
    && ReadCount(cs) <= |start.bus.replies|
    && now.bus.replies == start.bus.replies[ReadCount(cs)..]
    && now.bus.log == start.bus.log + WritesOf(cs)
    && now.address == start.address
    && now.registers == if ReadCount(cs) == 0 then start.registers else start.bus.replies[ReadCount(cs) - 1]
  }

  /** The accumulator invariant: the pulse total of `now` is the sum of the
      deltas of the blocks read since the last reset in `cs`, added to the
      starting total when `cs` has no reset. */
  predicate Accumulated(start: RadSens.Board, cs: seq<Command>, now: RadSens.Board) {
    && ReadCount(cs) <= |start.bus.replies|
    && now.pulseCount
       == (if HasReset(cs) then 0 else start.pulseCount)
          + SumDeltas(start.bus.replies[ReadCount(cs) - ReadsSinceReset(cs)..ReadCount(cs)])
  }

  /** One more call keeps `Consumed`, and succeeds exactly when a reply is
      left for it if it reads. */
  lemma StepConsumes(start: RadSens.Board, cs: seq<Command>, before: RadSens.Board)
    requires cs != [] && Consumed(start, cs[..|cs| - 1], before)
    ensures Step(before, cs[|cs| - 1]).Ok? <==> ReadCount(cs) <= |start.bus.replies|
    ensures Step(before, cs[|cs| - 1]).Ok? ==> Consumed(start, cs, Step(before, cs[|cs| - 1]).value)
  {
    var c := cs[|cs| - 1];
    assert ReadCount(cs) == ReadCount(cs[..|cs| - 1]) + if c.Reads() then 1 else 0;
    StepFacts(before, c);
    if Step(before, c).Ok? {
      if c.Reads() {
        ConsumedAfterRead(start, cs, before, Step(before, c).value);
      } else {
        ConsumedAfterWrite(start, cs, before, Step(before, c).value);
      }
    }
  }

  lemma ConsumedAfterRead(start: RadSens.Board, cs: seq<Command>, before: RadSens.Board, after: RadSens.Board)
    requires cs != [] && cs[|cs| - 1].Reads()
    requires Consumed(start, cs[..|cs| - 1], before) && |before.bus.replies| > 0
    requires after.bus.replies == before.bus.replies[1..] && after.registers == before.bus.replies[0]
    requires after.bus.log == before.bus.log && after.address == before.address
    ensures Consumed(start, cs, after)
  {
    var init := cs[..|cs| - 1];
    var k := ReadCount(init);
    assert ReadCount(cs) == k + 1 && WritesOf(cs) == WritesOf(init) + [];
    assert before.bus.replies[1..] == start.bus.replies[k + 1..];
    assert before.bus.replies[0] == start.bus.replies[k];
  }

  lemma ConsumedAfterWrite(start: RadSens.Board, cs: seq<Command>, before: RadSens.Board, after: RadSens.Board)
    requires cs != [] && !cs[|cs| - 1].Reads()
    requires Consumed(start, cs[..|cs| - 1], before)
    requires after.bus.replies == before.bus.replies && after.registers == before.registers
    requires after.bus.log == before.bus.log + cs[|cs| - 1].Writes() && after.address == before.address
    ensures Consumed(start, cs, after)
  {
    var init := cs[..|cs| - 1];
    assert ReadCount(cs) == ReadCount(init);
    assert WritesOf(cs) == WritesOf(init) + cs[|cs| - 1].Writes();
    AppendAssociates(start.bus.log, WritesOf(init), cs[|cs| - 1].Writes());
  }

  /** One more call keeps the accumulator invariant. */
  lemma StepAccumulates(start: RadSens.Board, cs: seq<Command>, before: RadSens.Board)
    requires cs != []
    requires Consumed(start, cs[..|cs| - 1], before) && Accumulated(start, cs[..|cs| - 1], before)
    requires Step(before, cs[|cs| - 1]).Ok?
    ensures Accumulated(start, cs, Step(before, cs[|cs| - 1]).value)
  {
    var c := cs[|cs| - 1];
    var k := ReadCount(cs[..|cs| - 1]);
    StepFacts(before, c);
    if c.ResetPulseCount? {
      AccumulatedAfterReset(start, cs, Step(before, c).value);
    } else if c.Reads() {
      assert before.bus.replies[0] == start.bus.replies[k];
      AccumulatedAfterRead(start, cs, before, Step(before, c).value);
    } else {
      AccumulatedAfterWrite(start, cs, before, Step(before, c).value);
    }
  }

  lemma AccumulatedAfterReset(start: RadSens.Board, cs: seq<Command>, after: RadSens.Board)
    requires cs != [] && cs[|cs| - 1].ResetPulseCount?
    requires ReadCount(cs[..|cs| - 1]) <= |start.bus.replies|
    requires after.pulseCount == 0
    ensures Accumulated(start, cs, after)
  {
    var k := ReadCount(cs);
    HasResetLast(cs);
    assert start.bus.replies[k..k] == [];
  }

  lemma AccumulatedAfterRead(start: RadSens.Board, cs: seq<Command>, before: RadSens.Board, after: RadSens.Board)
    requires cs != [] && cs[|cs| - 1].Reads()
    requires Accumulated(start, cs[..|cs| - 1], before)
    requires ReadCount(cs[..|cs| - 1]) < |start.bus.replies|
    requires after.pulseCount == before.pulseCount + PulseDelta(start.bus.replies[ReadCount(cs[..|cs| - 1])])
    ensures Accumulated(start, cs, after)
  {
    var init := cs[..|cs| - 1];
    var k, m := ReadCount(init), ReadsSinceReset(init);
    HasResetLast(cs);
    assert ReadCount(cs) == k + 1 && ReadsSinceReset(cs) == m + 1;
    SumDeltasExtend(start.bus.replies, k - m, k);
  }

  lemma AccumulatedAfterWrite(start: RadSens.Board, cs: seq<Command>, before: RadSens.Board, after: RadSens.Board)
    requires cs != [] && !cs[|cs| - 1].Reads() && !cs[|cs| - 1].ResetPulseCount?
    requires Accumulated(start, cs[..|cs| - 1], before)
    requires after.pulseCount == before.pulseCount
    ensures Accumulated(start, cs, after)
  {
    HasResetLast(cs);
  }

  /** A session succeeds exactly when the board answers every reading call,
      and then it has consumed the replies and sent the writes as
      `Consumed` says. */
  lemma {:induction false} RunConsumesReplies(b: RadSens.Board, cs: seq<Command>)
    ensures Run(b, cs).Ok? <==> ReadCount(cs) <= |b.bus.replies|
    ensures Run(b, cs).Ok? ==> Consumed(b, cs, Run(b, cs).value)
    decreases |cs|
  {
    if cs == [] {
      assert b.bus.replies[0..] == b.bus.replies;
    } else {
      var init := cs[..|cs| - 1];
      RunConsumesReplies(b, init);
      RunLast(b, cs);
      if Run(b, init).Ok? {
        StepConsumes(b, cs, Run(b, init).value);
      } else {
        assert ReadCount(init) <= ReadCount(cs);
      }
    }
  }

  /** After any session the pulse total is the sum of the deltas of the
      blocks read since the last reset, on top of the starting total when
      there was no reset. */
  lemma {:induction false} RunAccumulates(b: RadSens.Board, cs: seq<Command>)
    requires Run(b, cs).Ok?
    ensures Accumulated(b, cs, Run(b, cs).value)
    decreases |cs|
  {
    if cs == [] {
      assert b.bus.replies[0..0] == [];
    } else {
      var init := cs[..|cs| - 1];
      RunLast(b, cs);
      RunConsumesReplies(b, init);
      RunAccumulates(b, init);
      StepAccumulates(b, cs, Run(b, init).value);
    }
  }

  lemma HasResetLast(cs: seq<Command>)
    requires cs != []
    ensures HasReset(cs) <==> HasReset(cs[..|cs| - 1]) || cs[|cs| - 1].ResetPulseCount?
  {
    var init := cs[..|cs| - 1];
    if HasReset(cs) && !cs[|cs| - 1].ResetPulseCount? {
      var i :| 0 <= i < |cs| && cs[i].ResetPulseCount?;
      assert init[i] == cs[i];
    }
    if HasReset(init) {
      var i :| 0 <= i < |init| && init[i].ResetPulseCount?;
      assert cs[i] == init[i];
    }
  }

  lemma SumDeltasExtend(blocks: seq<RegisterBlock>, lo: nat, hi: nat)
    requires lo <= hi < |blocks|
    ensures SumDeltas(blocks[lo..hi + 1]) == SumDeltas(blocks[lo..hi]) + PulseDelta(blocks[hi])
  {
    var window := blocks[lo..hi + 1];
    assert window[..|window| - 1] == blocks[lo..hi];
  }

  /** Without a reset the total is the starting total plus every delta
      read, so it never decreases. */
  lemma NoResetAccumulates(b: RadSens.Board, cs: seq<Command>)
    requires Run(b, cs).Ok?
    requires forall i :: 0 <= i < |cs| ==> !cs[i].ResetPulseCount?
    ensures ReadCount(cs) <= |b.bus.replies|
    ensures Run(b, cs).value.pulseCount == b.pulseCount + SumDeltas(b.bus.replies[..ReadCount(cs)])
    ensures Run(b, cs).value.pulseCount >= b.pulseCount
  {
    RunAccumulates(b, cs);
    NoResetReadsAll(cs);
  }

  lemma {:induction false} NoResetReadsAll(cs: seq<Command>)
    requires forall i :: 0 <= i < |cs| ==> !cs[i].ResetPulseCount?
    ensures ReadsSinceReset(cs) == ReadCount(cs)
    decreases |cs|
  {
    if cs != [] {
      var init := cs[..|cs| - 1];
      assert forall i :: 0 <= i < |init| ==> init[i] == cs[i];
      NoResetReadsAll(init);
    }
  }

  /** Right after construction and any calls, the pulse total is the sum of
      the deltas of the blocks read after the constructor's own read, since
      the last reset; what the constructor's read counted is dropped. */
  lemma ConstructedSession(bus: Bus, address: int, b: RadSens.Board, cs: seq<Command>)
    requires RadSens.New(bus, address) == Ok(b)
    requires Run(b, cs).Ok?
    ensures ReadCount(cs) + 1 <= |bus.replies|
    ensures Run(b, cs).value.pulseCount
            == SumDeltas(bus.replies[1 + ReadCount(cs) - ReadsSinceReset(cs)..1 + ReadCount(cs)])
  {
    assert |bus.replies| > 0 && b.pulseCount == 0 && b.bus.replies == bus.replies[1..];
    RunAccumulates(b, cs);
    AfterFirstRead(bus.replies, b, cs, Run(b, cs).value);
  }

  /** The accumulator invariant for a board whose total is 0 and whose
      replies are all but the first of `replies`, counted in `replies`. */
  lemma AfterFirstRead(replies: seq<RegisterBlock>, b: RadSens.Board, cs: seq<Command>, now: RadSens.Board)
    requires |replies| > 0 && b.pulseCount == 0 && b.bus.replies == replies[1..]
    requires Accumulated(b, cs, now)
    ensures ReadCount(cs) + 1 <= |replies|
    ensures now.pulseCount == SumDeltas(replies[1 + ReadCount(cs) - ReadsSinceReset(cs)..1 + ReadCount(cs)])
  {
    var hi := ReadCount(cs);
    var lo := hi - ReadsSinceReset(cs);
    assert now.pulseCount == SumDeltas(b.bus.replies[lo..hi]);
    SliceOfTail(replies, lo, hi);
  }

  lemma AppendAssociates<T>(a: seq<T>, b: seq<T>, c: seq<T>)
    ensures (a + b) + c == a + (b + c)
  {
  }

  lemma SliceOfTail<T>(s: seq<T>, lo: nat, hi: nat)
    requires lo <= hi < |s|
    ensures s[1..][lo..hi] == s[1 + lo..1 + hi]
  {
  }

  /** A reset right after a reset changes nothing, and the first refresh
      after a reset reports exactly that refresh's delta. */
  lemma ResetThenRefresh(b: RadSens.Board)
    requires |b.bus.replies| > 0
    ensures RadSens.ResetPulseCount(RadSens.ResetPulseCount(b)) == RadSens.ResetPulseCount(b)
    ensures RadSens.GetPulseCount(RadSens.ResetPulseCount(b)).value.value == PulseDelta(b.bus.replies[0])
  {
  }
}
