/** Writers and the single reporter thread as an interleaved state machine
    (src/nccl_stats_aggregator.cc, notifyOperationMeasurement and
    processHighFrequencyTelemetry). A writer's step is atomic because it runs under the
    connection's lock, but its clock was sampled earlier, so every clock value is possible.
    The reporter's tick is cut into the pieces between which writers can run. */
module BandwidthRuns {
  import opened Arithmetic
  import opened RealSums
  import opened BandwidthWindow
  import opened ConnectionBandwidth
  import opened NicShaping
  import opened MapTotals
  import opened NicAggregation

  datatype Config = Config(bucketTime: nat, size: nat, maxLatency: nat, cap: real) {
    predicate Valid() {
      bucketTime > 0 && 0 < size <= TWO_63 && maxLatency / bucketTime <= size && cap >= 0.0
    }

    function CarryOverBuckets(): nat
      requires bucketTime > 0
    {
      maxLatency / bucketTime
    }
  }

  /** Where the reporter is inside processHighFrequencyTelemetry. */
  datatype Phase =
    | Idle
    | Swapping(next: nat, oldStart: int, now: int)
    | Aggregating(next: nat, direction: Direction)
    | Shaping

  /** A connection, its NIC, and two history variables about the Send measurements of the
      active generation: their greatest reach and their latest clock. */
  datatype Endpoint = Endpoint(conn: Connection, nic: Nic, reach: nat, latest: int)

  /** `limit` is the prefix handed on by the current tick. The last three fields record
      the Send bytes accepted so far, the bytes shaped so far, and the Send bytes of closed
      generations that were neither handed on nor carried over. */
  datatype Sys = Sys(endpoints: seq<Endpoint>, nics: NicMap, carry: real, start: int, phase: Phase,
                     limit: nat, recorded: real, shaped: real, lost: real)

  datatype Step =
    | Measurement(i: nat, direction: Direction, bytes: nat, latency: nat, clock: int)
    | BeginTick(now: int)
    | SwapNext
    | AggregateNext
    | PhaseDone
    | ShapePass(order: seq<Nic>)

  predicate OfSize(c: Connection, size: nat) {
    |c.active.send| == |c.active.recv| == |c.standby.send| == |c.standby.recv| == size
  }

  predicate WellFormed(cfg: Config, s: Sys) {
    && cfg.Valid()
    && s.limit + cfg.CarryOverBuckets() <= cfg.size
    && AllOfSize(s.nics, cfg.size)
    && (forall i :: 0 <= i < |s.endpoints| ==>
          OfSize(s.endpoints[i].conn, cfg.size) && s.endpoints[i].nic in s.nics)
  }

  function EmptyConnection(size: nat): Connection {
    Connection(Generation(0, Zeros(size), Zeros(size)), Generation(0, Zeros(size), Zeros(size)))
  }

  /** `homes` names the NIC of each connection. */
  function Init(cfg: Config, homes: seq<Nic>): (s: Sys)
    requires cfg.Valid()
    ensures WellFormed(cfg, s)
  {
    var endpoints := seq(|homes|, i requires 0 <= i < |homes| => Endpoint(EmptyConnection(cfg.size), homes[i], 0, 0));
    var nics := map k | k in homes :: NicCells(Zeros(cfg.size), Zeros(cfg.size));
    assert forall i :: 0 <= i < |homes| ==>
        endpoints[i] == Endpoint(EmptyConnection(cfg.size), homes[i], 0, 0) && homes[i] in nics;
    assert OfSize(EmptyConnection(cfg.size), cfg.size);
    Sys(endpoints, nics, 0.0, 0, Idle, 0, 0.0, 0.0, 0.0)
  }

  ghost predicate Enabled(cfg: Config, s: Sys, step: Step) {
    match step
    case Measurement(i, _, _, _, clock) =>
      // the difference of two 64-bit clock readings
      i < |s.endpoints| && -TWO_63 <= clock - s.endpoints[i].conn.active.start < TWO_63
    case BeginTick(now) => s.phase.Idle? && s.start <= now
    case SwapNext => s.phase.Swapping? && s.phase.next < |s.endpoints|
    case AggregateNext => s.phase.Aggregating? && s.phase.next < |s.endpoints|
    case PhaseDone => (s.phase.Swapping? || s.phase.Aggregating?) && s.phase.next == |s.endpoints|
    case ShapePass(order) => s.phase.Shaping? && IsOrder(order, s.nics.Keys)
  }

  // ---------- The steps ----------

  function Measured(cfg: Config, e: Endpoint, direction: Direction, bytes: nat, latency: nat, clock: int): Endpoint
    requires cfg.Valid() && OfSize(e.conn, cfg.size)
  {
    var conn := Measure(e.conn, direction, bytes as real, latency, clock, cfg.bucketTime);
    var start := e.conn.active.start;
    if direction.Recv? || bytes == 0 || start == 0 then e.(conn := conn)
    else
      var reach := Reach(clock - start, latency, cfg.bucketTime, cfg.size);
      e.(conn := conn,
         reach := if reach > e.reach then reach else e.reach,
         latest := if clock > e.latest then clock else e.latest)
  }

  function NextMeasurement(cfg: Config, s: Sys, i: nat, direction: Direction, bytes: nat, latency: nat, clock: int): Sys
    requires WellFormed(cfg, s) && i < |s.endpoints|
  {
    var accepted := direction.Send? && s.endpoints[i].conn.active.start != 0;
    s.(endpoints := s.endpoints[i := Measured(cfg, s.endpoints[i], direction, bytes, latency, clock)],
       recorded := s.recorded + if accepted then bytes as real else 0.0)
  }

  function NextBeginTick(cfg: Config, s: Sys, now: int): Sys
    requires WellFormed(cfg, s) && s.start <= now
  {
    var unused := UnusedBuckets(s.start, now, cfg.bucketTime, cfg.size);
    s.(start := now - cfg.maxLatency,
       limit := ValidLimit(cfg.CarryOverBuckets(), unused, cfg.size),
       phase := Swapping(0, s.start, now))
  }

  function NextSwap(cfg: Config, s: Sys): Sys
    requires WellFormed(cfg, s) && s.phase.Swapping? && s.phase.next < |s.endpoints|
  {
    var i := s.phase.next;
    var e := s.endpoints[i];
    var swapped := Endpoint(Swap(e.conn, s.start, s.limit, cfg.CarryOverBuckets()), e.nic, 0, s.start);
    s.(endpoints := s.endpoints[i := swapped],
       lost := s.lost + Sum(e.conn.active.send[s.limit + cfg.CarryOverBuckets()..]),
       phase := Swapping(i + 1, s.phase.oldStart, s.phase.now))
  }

  function NextAggregate(cfg: Config, s: Sys): Sys
    requires WellFormed(cfg, s) && s.phase.Aggregating? && s.phase.next < |s.endpoints|
  {
    var i := s.phase.next;
    var e := s.endpoints[i];
    var cells := s.nics[e.nic];
    var fed := if s.phase.direction.Send?
               then cells.(send := Accumulate(cells.send, e.conn.standby.send, s.limit))
               else cells.(recv := Accumulate(cells.recv, e.conn.standby.recv, s.limit));
    s.(endpoints := s.endpoints[i := e.(conn := Drained(e.conn))],
       nics := s.nics[e.nic := fed],
       phase := if s.phase.direction.Send? then Aggregating(i, Recv) else Aggregating(i + 1, Send))
  }

  function NextShapePass(cfg: Config, s: Sys, order: seq<Nic>): Sys
    requires WellFormed(cfg, s) && forall k :: k in order ==> k in s.nics
  {
    var arrivals := Arrivals(s.nics, order, s.limit, cfg.size);
    s.(nics := map k | k in s.nics :: NicCells(Zeros(cfg.size), Zeros(cfg.size)),
       carry := Carry(s.carry, arrivals, cfg.cap),
       shaped := s.shaped + Sum(Shape(s.carry, arrivals, cfg.cap)),
       limit := 0,
       phase := Idle)
  }

  ghost function Next(cfg: Config, s: Sys, step: Step): (t: Sys)
    requires WellFormed(cfg, s) && Enabled(cfg, s, step)
    ensures WellFormed(cfg, t)
  {
    match step
    case Measurement(i, direction, bytes, latency, clock) =>
      NextMeasurement(cfg, s, i, direction, bytes, latency, clock)
    case BeginTick(now) => NextBeginTick(cfg, s, now)
    case SwapNext => NextSwap(cfg, s)
    case AggregateNext => NextAggregate(cfg, s)
    case PhaseDone => s.(phase := if s.phase.Swapping? then Aggregating(0, Send) else Shaping)
    case ShapePass(order) => NextShapePass(cfg, s, order)
  }

  ghost predicate Executable(cfg: Config, s: Sys, steps: seq<Step>)
    requires WellFormed(cfg, s)
    decreases |steps|
  {
    steps == [] || (Enabled(cfg, s, steps[0]) && Executable(cfg, Next(cfg, s, steps[0]), steps[1..]))
  }

  ghost function Run(cfg: Config, s: Sys, steps: seq<Step>): (t: Sys)
    requires WellFormed(cfg, s) && Executable(cfg, s, steps)
    ensures WellFormed(cfg, t)
    decreases |steps|
  {
    if steps == [] then s else Run(cfg, Next(cfg, s, steps[0]), steps[1..])
  }
}
