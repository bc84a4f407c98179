/** Allocation of local ports from the configured range (open_connection, lib/Server.py, and
    setup_portrange, lib/TSI.py). */
module Ports {
  import opened Text
  import opened Numbers

  datatype RangeSpec = Absent | Malformed | Bounds(lower: int, upper: int)

  /** What the configured text says: two numbers with one colon between them. */
  function ParseRange(text: Option<string>): RangeSpec {
    match text
    case None => Absent
    case Some(t) =>
      var parts := Split(Strip(t), ':');
      if |parts| != 2 then Malformed
      else
        match (ParseInt(parts[0]), ParseInt(parts[1]))
        case (Some(lower), Some(upper)) => Bounds(lower, upper)
        case _ => Malformed
  }

  /** The pointer to the port tried next, and the range it moves in. */
  datatype PortRange = PortRange(next: int, lower: int, upper: int)

  function SetupPortRange(spec: RangeSpec): Option<PortRange> {
    match spec
    case Absent => Some(PortRange(0, -1, -1))
    case Malformed => None
    case Bounds(lower, upper) => if upper <= lower then None else Some(PortRange(lower, lower, upper))
  }

  /** Exactly the texts that give two bounds. */
  lemma RangeTextIsExact(t: string, lower: int, upper: int)
    ensures ParseRange(Some(t)) == Bounds(lower, upper) <==>
              exists a, b :: ':' !in a && ':' !in b && Strip(t) == a + ":" + b
                             && ParseInt(a) == Some(lower) && ParseInt(b) == Some(upper)
  {
    hide Strip, ParseInt;
    var parts := Split(Strip(t), ':');
    if |parts| == 2 {
      var a, b := parts[0], parts[1];
      assert parts == [a, b];
      SplitInTwo(Strip(t), a, b, ':');
    }
    if a, b :| ':' !in a && ':' !in b && Strip(t) == a + ":" + b
               && ParseInt(a) == Some(lower) && ParseInt(b) == Some(upper)
    {
      SplitInTwo(Strip(t), a, b, ':');
    }
  }

  /** A range written as "lower:upper" is read back, also with negative bounds. */
  lemma RangeTextIsRead(lower: int, upper: int)
    ensures ParseRange(Some(Signed(lower) + ":" + Signed(upper))) == Bounds(lower, upper)
  {
    hide Strip, ParseInt, Signed;
    var a, b := Signed(lower), Signed(upper);
    IntRoundTrip(lower);
    IntRoundTrip(upper);
    var t := a + ":" + b;
    assert t[0] == a[0] && t[|t| - 1] == b[|b| - 1];
    StripKeeps(t);
    RangeTextIsExact(t, lower, upper);
  }

  predicate IsActive(r: PortRange) {
    r.next > 0
  }

  predicate InRange(r: PortRange) {
    0 < r.lower <= r.next <= r.upper
  }

  function Size(r: PortRange): int {
    r.upper - r.lower + 1
  }

  function Advance(port: int, r: PortRange): int {
    if port + 1 > r.upper then r.lower else port + 1
  }

  /** The port of attempt i. */
  function Attempt(r: PortRange, i: nat): int {
    if r.next + i <= r.upper then r.next + i else r.next + i - Size(r)
  }

  lemma AttemptIsCyclic(r: PortRange, i: nat)
    requires InRange(r) && i < Size(r)
    ensures Attempt(r, i) == r.lower + (r.next - r.lower + i) % Size(r)
    ensures r.lower <= Attempt(r, i) <= r.upper
    ensures Advance(Attempt(r, i), r) == Attempt(r, i + 1)
  {
    var a, n := r.next - r.lower + i, Size(r);
    if a < n {
      assert a % n == a;
    } else {
      assert a == n + (a - n);
      assert a % n == a - n;
    }
  }

  /** All ports of the range, in the order of the attempts. */
  function Order(r: PortRange): (order: seq<int>)
    requires InRange(r)
    ensures |order| == Size(r)
    ensures forall i :: 0 <= i < |order| ==> order[i] == Attempt(r, i)
  {
    seq(Size(r), i requires 0 <= i < Size(r) => Attempt(r, i))
  }

  /** Each port of the range occurs in the order exactly once. */
  lemma OrderIsExact(r: PortRange)
    requires InRange(r)
    ensures forall i, j :: 0 <= i < j < Size(r) ==> Order(r)[i] != Order(r)[j]
    ensures forall port :: port in Order(r) <==> r.lower <= port <= r.upper
  {
    forall port | r.lower <= port <= r.upper ensures port in Order(r) {
      var i := if port >= r.next then port - r.next else port - r.next + Size(r);
      assert Order(r)[i] == port;
    }
  }

  function Free(order: seq<int>, busy: set<int>): seq<int> {
    if order == [] then []
    else if order[0] in busy then Free(order[1..], busy)
    else [order[0]] + Free(order[1..], busy)
  }

  lemma {:induction false} FreeOfConcat(a: seq<int>, b: seq<int>, busy: set<int>)
    ensures Free(a + b, busy) == Free(a, busy) + Free(b, busy)
  {
    if a == [] {
      assert a + b == b;
    } else {
      assert (a + b)[1..] == a[1..] + b;
      FreeOfConcat(a[1..], b, busy);
    }
  }

  lemma {:induction false} FreeOfBusy(order: seq<int>, busy: set<int>)
    requires forall i :: 0 <= i < |order| ==> order[i] in busy
    ensures Free(order, busy) == []
  {
    if order != [] {
      FreeOfBusy(order[1..], busy);
    }
  }

  lemma {:induction false} FreeIgnores(order: seq<int>, busy: set<int>, port: int)
    requires port !in order
    ensures Free(order, busy + {port}) == Free(order, busy)
  {
    if order != [] {
      FreeIgnores(order[1..], busy, port);
    }
  }

  lemma {:induction false} FreeMembers(order: seq<int>, busy: set<int>)
    ensures forall port :: port in Free(order, busy) <==> port in order && port !in busy
  {
    if order != [] {
      FreeMembers(order[1..], busy);
      assert forall port :: port in order <==> port == order[0] || port in order[1..];
    }
  }

  lemma {:induction false} FreeIsDistinct(order: seq<int>, busy: set<int>)
    requires forall i, j :: 0 <= i < j < |order| ==> order[i] != order[j]
    ensures forall i, j :: 0 <= i < j < |Free(order, busy)| ==> Free(order, busy)[i] != Free(order, busy)[j]
  {
    if order != [] {
      var rest := Free(order[1..], busy);
      FreeIsDistinct(order[1..], busy);
      FreeMembers(order[1..], busy);
      assert forall i :: 0 <= i < |rest| ==> rest[i] in rest;
    }
  }

  /** The first free port heads the free ports. */
  lemma FreeAfterBusyPrefix(order: seq<int>, i: nat, busy: set<int>)
    requires i < |order| && order[i] !in busy
    requires forall j :: 0 <= j < i ==> order[j] in busy
    ensures Free(order, busy) == [order[i]] + Free(order[i + 1..], busy)
  {
    FreeOfBusy(order[..i], busy);
    assert order == order[..i] + order[i..];
    FreeOfConcat(order[..i], order[i..], busy);
    assert order[i..][1..] == order[i + 1..];
  }

  /** After a success at attempt i the order continues behind that port and ends with it. */
  lemma OrderRotates(r: PortRange, i: nat)
    requires InRange(r) && i < Size(r)
    ensures var r' := r.(next := Advance(Attempt(r, i), r));
            InRange(r') && Order(r') == Order(r)[i + 1..] + Order(r)[..i + 1]
  {
    AttemptIsCyclic(r, i);
  }

  /** Taking the first free port leaves the other free ports, in the same order, for the calls to come. */
  lemma RemainingFree(r: PortRange, i: nat, busy: set<int>)
    requires InRange(r) && i < Size(r) && Attempt(r, i) !in busy
    requires forall j :: 0 <= j < i ==> Attempt(r, j) in busy
    ensures var r' := r.(next := Advance(Attempt(r, i), r));
            InRange(r') && Free(Order(r), busy) == [Attempt(r, i)] + Free(Order(r'), busy + {Attempt(r, i)})
  {
    var port, order := Attempt(r, i), Order(r);
    OrderRotates(r, i);
    OrderIsExact(r);
    FreeAfterBusyPrefix(order, i, busy);
    FreeOfBusy(order[..i + 1], busy + {port});
    FreeOfConcat(order[i + 1..], order[..i + 1], busy + {port});
    FreeIgnores(order[i + 1..], busy, port);
  }

  /** One call with an active range: the first free port in attempt order is taken and the pointer
      moves behind it, or nothing changes because every port is busy or another error was met. */
  ghost predicate CallEffect(r: PortRange, busy: set<int>, result: Opened, r': PortRange, busy': set<int>) {
    match result
    case Opened(port) =>
      && r' == r.(next := Advance(port, r)) && busy' == busy + {port}
      && exists i: nat :: i < Size(r) && IsFirstFree(r, busy, i) && Attempt(r, i) == port
    case Exhausted => r' == r && busy' == busy && forall port :: r.lower <= port <= r.upper ==> port in busy
    case Raised => r' == r && busy' == busy
  }

  ghost predicate IsFirstFree(r: PortRange, busy: set<int>, i: nat) {
    Attempt(r, i) !in busy && forall j: nat :: j < i ==> Attempt(r, j) in busy
  }

  lemma AllTriedAllBusy(r: PortRange, busy: set<int>)
    requires InRange(r) && forall j :: 0 <= j < Size(r) ==> Attempt(r, j) in busy
    ensures forall port :: r.lower <= port <= r.upper ==> port in busy
  {
    forall port | r.lower <= port <= r.upper ensures port in busy {
      var j := if port >= r.next then port - r.next else port - r.next + Size(r);
      assert Attempt(r, j) == port;
    }
  }

  datatype Call = Call(range: PortRange, busy: set<int>, result: Opened, range': PortRange, busy': set<int>)

  /** Calls one after the other, every claimed port kept and nothing else changing. */
  ghost predicate IsRun(calls: seq<Call>) {
    && (forall c :: c in calls ==> CallEffect(c.range, c.busy, c.result, c.range', c.busy'))
    && (forall i :: 0 < i < |calls| ==> calls[i].range == calls[i - 1].range' && calls[i].busy == calls[i - 1].busy')
  }

  /** Over any run that meets no error but ports in use: when k ports are free at its start, the
      first k calls claim exactly these, in cyclic order from the pointer, and every later call
      finds the range exhausted. The pointer never leaves the range. */
  lemma {:induction false} RunClaimsAllFree(calls: seq<Call>)
    requires IsRun(calls) && calls != [] && InRange(calls[0].range)
    requires forall c :: c in calls ==> !c.result.Raised?
    ensures var free := Free(Order(calls[0].range), calls[0].busy);
            forall i :: 0 <= i < |calls| ==>
              InRange(calls[i].range') && calls[i].result == if i < |free| then Opened(free[i]) else Exhausted
  {
    var c := calls[0];
    assert c in calls;
    var free := Free(Order(c.range), c.busy);
    if c.result.Opened? {
      var i: nat :| i < Size(c.range) && IsFirstFree(c.range, c.busy, i) && Attempt(c.range, i) == c.result.port;
      RemainingFree(c.range, i, c.busy);
    } else {
      forall j | 0 <= j < |Order(c.range)| ensures Order(c.range)[j] in c.busy {
        AttemptIsCyclic(c.range, j);
      }
      FreeOfBusy(Order(c.range), c.busy);
    }
    var rest := calls[1..];
    if rest != [] {
      assert rest[0].range == c.range' && rest[0].busy == c.busy';
      forall i | 0 < i < |rest| ensures rest[i].range == rest[i - 1].range' && rest[i].busy == rest[i - 1].busy' {
        assert calls[i + 1].range == calls[i].range';
      }
      RunClaimsAllFree(rest);
      forall i | 0 < i < |calls|
        ensures InRange(calls[i].range') && calls[i].result == if i < |free| then Opened(free[i]) else Exhausted
      {
        assert calls[i] == rest[i - 1];
      }
    }
  }

  /** The free ports of a range, in attempt order, are pairwise distinct and complete. */
  lemma FreePortsAreDistinct(r: PortRange, busy: set<int>)
    requires InRange(r)
    ensures var free := Free(Order(r), busy);
            && (forall i, j :: 0 <= i < j < |free| ==> free[i] != free[j])
            && forall port :: port in free <==> r.lower <= port <= r.upper && port !in busy
  {
    OrderIsExact(r);
    FreeMembers(Order(r), busy);
    FreeIsDistinct(Order(r), busy);
  }

  predicate IsPort(port: int) {
    0 <= port <= 65535
  }

  datatype Opened = Opened(port: int) | Exhausted | Raised

  /** What a call meets on a calm network: the first port that is free, a number that is no port, which
      raises an OverflowError, or nothing but busy ports. */
  function FirstOutcome(order: seq<int>, busy: set<int>): Opened {
    if order == [] then Exhausted
    else if !IsPort(order[0]) then Raised
    else if order[0] in busy then FirstOutcome(order[1..], busy)
    else Opened(order[0])
  }

  /** Without an active range a single attempt is made; port 0 lets the system choose. */
  function CalmOutcome(r: PortRange, busy: set<int>): Opened
    requires IsActive(r) ==> InRange(r)
  {
    if IsActive(r) then FirstOutcome(Order(r), busy)
    else if r.next == 0 then Opened(0)
    else Raised
  }

  /** Positions of the pointer for a range with these bounds: inside an active range, else at its start. */
  predicate IsPointer(r: PortRange, lower: int, upper: int) {
    r.lower == lower && r.upper == upper && if lower > 0 then InRange(r) else r.next == lower
  }

  lemma {:induction false} FirstOutcomeOfPorts(order: seq<int>, busy: set<int>)
    requires forall i :: 0 <= i < |order| ==> IsPort(order[i])
    ensures !FirstOutcome(order, busy).Raised?
  {
    if order != [] {
      FirstOutcomeOfPorts(order[1..], busy);
    }
  }

  lemma {:induction false} FirstOutcomeRaises(order: seq<int>, i: nat, busy: set<int>)
    requires i < |order| && !IsPort(order[i]) && forall j :: 0 <= j < i ==> order[j] in busy
    ensures FirstOutcome(order, busy).Raised?
  {
    if i > 0 {
      FirstOutcomeRaises(order[1..], i - 1, busy);
    }
  }

  /** When no call on a calm network can raise: an accepted range that starts at 0 is ignored, whatever its
      upper bound, and any other must lie within the ports. The condition is exact even if only calls with
      the pointer at the start count, and it then covers every position of the pointer. */
  lemma RaisesAreExact(lower: int, upper: int)
    requires lower < upper
    ensures (forall busy :: !CalmOutcome(PortRange(lower, lower, upper), busy).Raised?)
            <==> lower == 0 || (lower > 0 && IsPort(upper))
    ensures lower == 0 || (lower > 0 && IsPort(upper)) ==>
              forall r, busy :: IsPointer(r, lower, upper) ==> !CalmOutcome(r, busy).Raised?
  {
    var start := PortRange(lower, lower, upper);
    if lower == 0 || (lower > 0 && IsPort(upper)) {
      forall r, busy | IsPointer(r, lower, upper) ensures !CalmOutcome(r, busy).Raised? {
        if lower > 0 {
          OrderIsExact(r);
          FirstOutcomeOfPorts(Order(r), busy);
        }
      }
      assert IsPointer(start, lower, upper);
    } else if lower > 0 {
      var busy := set port | port in Order(start) && IsPort(port);
      FirstOutcomeRaises(Order(start), if lower > 65535 then 0 else 65536 - lower, busy);
      assert CalmOutcome(start, busy).Raised?;
    } else {
      assert CalmOutcome(start, {}).Raised?;
    }
  }

  datatype BindResult = Bound | InUse | OtherError
  /** The host's ports. On a calm network the only error a connection attempt from a valid local port
      can meet is that the port is in use. */
  class Network {
    const calm: bool
    var busy: set<int>

    constructor (calm: bool, busy: set<int>)
      ensures this.calm == calm && this.busy == busy
    {
      this.calm, this.busy := calm, busy;
    }

    /** socket.create_connection with a given local port; port 0 lets the system choose, and a number
        that is no port raises an OverflowError. */
    method Connect(port: int) returns (r: BindResult)
      modifies this
      ensures !IsPort(port) ==> r == OtherError
      ensures r == Bound ==> if port > 0 then port !in old(busy) && busy == old(busy) + {port} else busy == old(busy)
      ensures r == InUse ==> port > 0 && port in old(busy)
      ensures r != Bound ==> busy == old(busy)
      ensures calm && IsPort(port) ==> r != OtherError
    {
      var fails: bool := *;
      if !IsPort(port) || (fails && !calm) {
        return OtherError;
      }
      if port > 0 {
        if port in busy {
          return InUse;
        }
        busy := busy + {port};
      }
      r := Bound;
    }
  }

  class Allocator {
    var range: PortRange
    const network: Network

    constructor (range: PortRange, network: Network)
      ensures this.range == range && this.network == network
    {
      this.range, this.network := range, network;
    }

    /** The pointer moves only on success. With an active range, attempt i tries the i-th port of
        the cyclic order, each port at most once. */
    method OpenConnection() returns (r: Opened, ghost tried: seq<int>)
      requires IsActive(range) ==> InRange(range)
      modifies this, network
      ensures !IsActive(old(range)) ==> range == old(range) && tried == [old(range).next]
      ensures network.calm ==> r == CalmOutcome(old(range), old(network.busy))
      ensures r.Opened? ==> IsPort(r.port)
      ensures !IsPort(old(range).next) ==> r.Raised?
      ensures !r.Opened? ==> range == old(range) && network.busy == old(network.busy)
      ensures IsActive(old(range)) ==>
                && InRange(range) && CallEffect(old(range), old(network.busy), r, range, network.busy)
                && tried <= Order(old(range))
                && (r.Opened? ==> tried != [] && tried[|tried| - 1] == r.port)
                && (r.Exhausted? ==> tried == Order(old(range)))
                && (r.Raised? ==> !network.calm || (tried != [] && !IsPort(tried[|tried| - 1])))
    {
      var localPort := range.next;
      var lower, upper := range.lower, range.upper;
      var useRange := localPort > 0;
      var maxAttempts := if useRange then upper - lower + 1 else 1;
      var attempts := 0;
      tried := [];
      while attempts < maxAttempts
        invariant 0 <= attempts <= maxAttempts == if useRange then Size(range) else 1
        invariant range == old(range) && network.busy == old(network.busy)
        invariant !useRange ==> attempts == 0 && localPort == range.next && tried == []
        invariant attempts > 0 ==> IsPort(old(range).next)
        invariant useRange && network.calm ==>
                    CalmOutcome(range, network.busy) == FirstOutcome(Order(range)[attempts..], network.busy)
        invariant useRange ==>
                    && localPort == Attempt(range, attempts) && tried == Order(range)[..attempts]
                    && forall j :: 0 <= j < attempts ==> Attempt(range, j) in network.busy
      {
        var result := network.Connect(localPort);
        if useRange {
          assert Order(range)[attempts..][0] == localPort;
          assert Order(range)[attempts..][1..] == Order(range)[attempts + 1..];
          AttemptIsCyclic(range, attempts);
          assert Order(range)[..attempts + 1] == tried + [localPort];
        }
        tried := tried + [localPort];
        if result == Bound {
          r := Opened(localPort);
          if useRange {
            assert IsFirstFree(range, old(network.busy), attempts);
            localPort := localPort + 1;
            if localPort > upper {
              localPort := lower;
            }
            range := PortRange(localPort, lower, upper);
          }
          return;
        }
        attempts := attempts + 1;
        if useRange && result == InUse {
          localPort := localPort + 1;
          if localPort > upper {
            localPort := lower;
          }
        } else {
          return Raised, tried;
        }
      }
      assert Order(range)[..attempts] == Order(range);
      AllTriedAllBusy(range, network.busy);
      r := Exhausted;
    }
  }

  /** Every configuration that setup_portrange accepts either never restricts ports or starts with
      the pointer in its range. A range from 0 on is silently ignored; one from a negative number on is
      accepted, but the pointer stays below 0, where every call raises. */
  lemma SetupIsSound(text: Option<string>)
    ensures var spec := ParseRange(text);
            && (SetupPortRange(spec).None? <==> spec.Malformed? || (spec.Bounds? && spec.upper <= spec.lower))
            && (SetupPortRange(spec).Some? ==>
                  var r := SetupPortRange(spec).value;
                  && (IsActive(r) ==> InRange(r) && Size(r) >= 2)
                  && (IsActive(r) <==> spec.Bounds? && spec.lower > 0)
                  && (r.next < 0 <==> spec.Bounds? && spec.lower < 0))
  {
    hide ParseRange;
  }

  /** A written range is set up with exactly its bounds, and the pointer at the lower one. */
  lemma WrittenRangeIsSetUp(lower: int, upper: int)
    ensures SetupPortRange(ParseRange(Some(Signed(lower) + ":" + Signed(upper))))
            == if lower < upper then Some(PortRange(lower, lower, upper)) else None
    ensures SetupPortRange(ParseRange(None)) == Some(PortRange(0, -1, -1))
  {
    RangeTextIsRead(lower, upper);
  }

  /** The ports of a range, ascending. */
  function Ascending(lower: int, upper: int): (ports: seq<int>)
    requires lower <= upper
    ensures |ports| == upper - lower + 1
    ensures forall i :: 0 <= i < |ports| ==> ports[i] == lower + i
  {
    seq(upper - lower + 1, i => lower + i)
  }

  lemma {:induction false} FreeOfFree(order: seq<int>, busy: set<int>)
    requires forall i :: 0 <= i < |order| ==> order[i] !in busy
    ensures Free(order, busy) == order
  {
    if order != [] {
      FreeOfFree(order[1..], busy);
    }
  }

  lemma OpenedOrExhausted(r: PortRange, lower: int, upper: int, busy: set<int>)
    requires 0 < lower < upper <= 65535 && IsPointer(r, lower, upper)
    ensures !CalmOutcome(r, busy).Raised?
  {
    RaisesAreExact(lower, upper);
  }

  /** From the configuration's text to the connections of a worker. Over a calm network the first calls open
      the free ports of the written range in ascending order, all later calls find it exhausted; if no
      port of it is busy these are lower, lower + 1, and so on up to upper. */
  method ServeRange(lower: int, upper: int, network: Network, k: nat) returns (results: seq<Opened>)
    requires 0 < lower < upper <= 65535 && network.calm
    modifies network
    ensures |results| == k
    ensures var free := Free(Ascending(lower, upper), old(network.busy));
            forall i :: 0 <= i < k ==> results[i] == if i < |free| then Opened(free[i]) else Exhausted
    ensures (forall port :: lower <= port <= upper ==> port !in old(network.busy)) ==>
              forall i :: 0 <= i < k ==> results[i] == if lower + i <= upper then Opened(lower + i) else Exhausted
  {
    hide ParseRange, CallEffect, IsRun, CalmOutcome, Free;
    WrittenRangeIsSetUp(lower, upper);
    var range := SetupPortRange(ParseRange(Some(Signed(lower) + ":" + Signed(upper)))).value;
    var allocator := new Allocator(range, network);
    ghost var calls: seq<Call> := [];
    results := [];
    NoCalls();
    while |results| < k
      invariant |calls| == |results| <= k
      invariant IsPointer(allocator.range, lower, upper)
      invariant IsRun(calls) && forall i :: 0 <= i < |calls| ==> calls[i].result == results[i] && !results[i].Raised?
      invariant if calls == [] then allocator.range == range && network.busy == old(network.busy)
                else
                  && calls[0].range == range && calls[0].busy == old(network.busy)
                  && allocator.range == calls[|calls| - 1].range' && network.busy == calls[|calls| - 1].busy'
    {
      ghost var r, busy := allocator.range, network.busy;
      OpenedOrExhausted(r, lower, upper, busy);
      var result;
      ghost var tried;
      result, tried := allocator.OpenConnection();
      ghost var call := Call(r, busy, result, allocator.range, network.busy);
      RunGrows(calls, call);
      RangeKept(r, busy, result, allocator.range, network.busy);
      calls, results := calls + [call], results + [result];
    }
    ghost var ports := Ascending(lower, upper);
    assert Order(range) == ports;
    if k > 0 {
      forall c | c in calls ensures !c.result.Raised? {
        var i :| 0 <= i < |calls| && calls[i] == c;
      }
      RunClaimsAllFree(calls);
    }
    if forall port :: lower <= port <= upper ==> port !in old(network.busy) {
      FreeOfFree(ports, old(network.busy));
    }
  }

  lemma NoCalls()
    ensures IsRun([])
  {
  }

  lemma RunGrows(calls: seq<Call>, c: Call)
    requires IsRun(calls) && CallEffect(c.range, c.busy, c.result, c.range', c.busy')
    requires calls != [] ==> c.range == calls[|calls| - 1].range' && c.busy == calls[|calls| - 1].busy'
    ensures IsRun(calls + [c])
  {
    hide CallEffect;
  }

  lemma RangeKept(r: PortRange, busy: set<int>, result: Opened, r': PortRange, busy': set<int>)
    requires CallEffect(r, busy, result, r', busy')
    ensures r'.lower == r.lower && r'.upper == r.upper
  {
  }

  /** An accepted range from a negative number on, or beyond the ports, is of no use on any network. */
  method UselessRangeNeverConnects(lower: int, upper: int, network: Network) returns (r: Opened)
    requires lower < upper && (lower < 0 || lower > 65535)
    modifies network
    ensures var text := Signed(lower) + ":" + Signed(upper);
            SetupPortRange(ParseRange(Some(text))) == Some(PortRange(lower, lower, upper))
    ensures r.Raised? && network.busy == old(network.busy)
  {
    hide ParseRange;
    RangeTextIsRead(lower, upper);
    var allocator := new Allocator(PortRange(lower, lower, upper), network);
    ghost var tried;
    r, tried := allocator.OpenConnection();
  }
}
