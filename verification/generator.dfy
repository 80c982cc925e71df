/** The seeded generator and the loops that draw a plan from it. */
module Generator {
  import opened Protocol
  import opened Scenarios
  import opened Plans
  import Network

  // ---- SplitMix64 ------------------------------------------------------------------------

  const GAMMA: bv64 := 0x9e37_79b9_7f4a_7c15

  function Mix(state: bv64): bv64 {
    var one := (state ^ (state >> 30)) * 0xbf58_476d_1ce4_e5b9;
    var two := (one ^ (one >> 27)) * 0x94d0_49bb_1331_11eb;
    two ^ (two >> 31)
  }

  /** The state after some draws; the addition wraps around. */
  function StateAfter(seed: bv64, count: nat): bv64 {
    if count == 0 then seed else StateAfter(seed, count - 1) + GAMMA
  }

  /** Draw number `k` of a seed. */
  function Drawn(seed: bv64): nat -> nat {
    k => Mix(StateAfter(seed, k + 1)) as nat
  }

  /** The seed as a number. */
  function Value(seed: bv64): nat {
    seed as nat
  }

  class SplitMix64 {
    const seed: bv64
    var state: bv64
    /** How many draws were made. */
    ghost var count: nat

    ghost predicate Valid()
      reads this
    {
      state == StateAfter(seed, count)
    }

    constructor (seed: bv64)
      ensures Valid() && this.seed == seed && count == 0
    {
      this.seed, state, count := seed, seed, 0;
    }

    method Next() returns (value: nat)
      requires Valid()
      modifies this
      ensures Valid() && count == old(count) + 1 && value == Drawn(seed)(old(count))
    {
      hide Mix;
      state := state + GAMMA;
      count := count + 1;
      var mixed := Mix(state);
      value := mixed as nat;
    }

    /** Hexadecimal bytes, a new draw for every eighth, low byte first. */
    method HexBytes(length: nat) returns (output: Bytes)
      requires Valid()
      modifies this
      ensures Valid() && count == old(count) + Draws(length)
      ensures output == Plans.HexBytes(Drawn(seed), old(count), length)
    {
      hide Mix, StateAfter, SplitMix64.Valid, Drawn, Draws, Plans.HexBytes, Shift;
      output := [];
      var value, shifted := 0, 0;
      NothingDrawn(Drawn(seed), count);
      for index := 0 to length
        invariant Valid() && count == old(count) + Draws(index)
        invariant output == Plans.HexBytes(Drawn(seed), old(count), index)
        invariant index % 8 != 0 ==> value == Drawn(seed)(old(count) + index / 8) && shifted == Shift(value, index % 8)
      {
        ByteNext(Drawn(seed), old(count), index);
        if index % 8 == 0 {
          value := Next();
          shifted := value;
        }
        ShiftNext(value, index % 8);
        var b := shifted % 256;
        output := output + [DIGITS[b / 16], DIGITS[b % 16]];
        shifted := shifted / 256;
        EighthNext(index);
      }
    }

    /** One request: its nonce first, then its payload. */
    method Request(index: nat, payloadBytes: nat) returns (request: PlannedRequest)
      requires Valid() && index < 10000
      modifies this
      ensures Valid() && count == old(count) + 1 + Draws(payloadBytes)
      ensures request.requestId == "request-" + Decimal4(index) + "-" + HexFixed(Drawn(seed)(old(count)), 16)
      ensures request.payload == Plans.HexBytes(Drawn(seed), old(count) + 1, payloadBytes)
    {
      hide Mix, StateAfter, SplitMix64.Valid, Drawn, Plans.HexBytes;
      var nonce := Next();
      var payload := HexBytes(payloadBytes);
      request := PlannedRequest("request-" + Decimal4(index) + "-" + HexFixed(nonce, 16), payload);
    }
  }

  lemma NothingDrawn(draw: nat -> nat, position: nat)
    ensures Draws(0) == 0 && Plans.HexBytes(draw, position, 0) == []
  {}

  /** One more byte: a draw is due for every eighth, and the byte comes out of it. */
  lemma ByteNext(draw: nat -> nat, position: nat, index: nat)
    ensures Draws(index + 1) == Draws(index) + if index % 8 == 0 then 1 else 0
    ensures index % 8 == 0 ==> Draws(index) == index / 8
    ensures var b := Shift(draw(position + index / 8), index % 8) % 256;
            Plans.HexBytes(draw, position, index + 1) == Plans.HexBytes(draw, position, index) + [DIGITS[b / 16],
                                                                                                  DIGITS[b % 16]]
  {
    hide Shift;
  }

  lemma ShiftNext(value: nat, count: nat)
    ensures Shift(value, 0) == value && Shift(value, count + 1) == Shift(value, count) / 256
  {}

  lemma EighthNext(index: nat)
    ensures (index + 1) % 8 != 0 ==> (index + 1) / 8 == index / 8 && (index + 1) % 8 == index % 8 + 1
  {}

  // ---- The plans -----------------------------------------------------------------------------

  /** Where the process fault may be placed, in order. */
  method ListCandidates(count: nat, activation: nat, restoration: nat) returns (candidates: seq<nat>)
    ensures candidates == Candidates(count, activation, restoration)
  {
    candidates := [];
    var index := 1;
    while index < count
      invariant 1 <= index && (index <= count || (count == 0 && index == 1))
      invariant candidates == Candidates(index, activation, restoration)
    {
      if index != activation && index != restoration {
        candidates := candidates + [index];
      }
      index := index + 1;
    }
    assert Candidates(0, activation, restoration) == Candidates(1, activation, restoration);
  }

  /** The requests of a plan, drawn one after another. */
  method DrawRequests(random: SplitMix64, payloadBytes: nat, n: nat, ghost base: nat)
    returns (requests: seq<PlannedRequest>)
    requires random.Valid() && random.count == base && n <= 10000
    modifies random
    ensures random.Valid() && |requests| == n
    ensures forall i | 0 <= i < n :: IsRequest(requests[i], payloadBytes, Drawn(random.seed), base, i)
  {
    hide Mix, StateAfter, SplitMix64.Valid, Drawn, Plans.HexBytes, Draws, Position, HexFixed, Decimal4;
    requests := [];
    PositionNext(base, payloadBytes, 0);
    for index := 0 to n
      invariant random.Valid() && random.count == Position(base, payloadBytes, index) && |requests| == index
      invariant forall i | 0 <= i < index :: IsRequest(requests[i], payloadBytes, Drawn(random.seed), base, i)
    {
      PositionNext(base, payloadBytes, index);
      var request := random.Request(index, payloadBytes);
      requests := requests + [request];
    }
  }

  /** The request takes its identifier from one draw and its payload from those after it. */
  predicate IsRequest(request: PlannedRequest, payloadBytes: nat, draw: nat -> nat, base: nat, index: nat)
    requires index < 10000
  {
    var position := Position(base, payloadBytes, index);
    && request.requestId == "request-" + Decimal4(index) + "-" + HexFixed(draw(position), 16)
    && request.payload == Plans.HexBytes(draw, position + 1, payloadBytes)
  }

  lemma {:induction false} RequestsAre(requests: seq<PlannedRequest>, payloadBytes: nat, draw: nat -> nat)
    requires |requests| <= 10000
    requires forall i | 0 <= i < |requests| :: IsRequest(requests[i], payloadBytes, draw, 3, i)
    ensures requests == Requests(payloadBytes, draw, |requests|)
  {
    hide Plans.HexBytes, Position, HexFixed, Decimal4;
    var planned := Requests(payloadBytes, draw, |requests|);
    forall i | 0 <= i < |requests| ensures requests[i] == planned[i] {
      assert IsRequest(requests[i], payloadBytes, draw, 3, i);
    }
  }

  lemma {:induction false} NetworkRequestsAre(requests: seq<PlannedRequest>, payloadBytes: nat, draw: nat -> nat)
    requires |requests| <= 10000
    requires forall i | 0 <= i < |requests| :: IsRequest(requests[i], payloadBytes, draw, 2, i)
    ensures requests == Network.Requests(payloadBytes, draw, |requests|)
  {
    hide Plans.HexBytes, Position, HexFixed, Decimal4;
    if requests != [] {
      var n := |requests| - 1;
      assert IsRequest(requests[n], payloadBytes, draw, 2, n);
      assert forall i | 0 <= i < n :: requests[..n][i] == requests[i];
      NetworkRequestsAre(requests[..n], payloadBytes, draw);
      assert requests == requests[..n] + [requests[n]];
    }
  }

  /** Where the outage begins and ends: the first two draws. */
  method DrawTransitions(random: SplitMix64, n: nat) returns (activation: nat, restoration: nat)
    requires random.Valid() && random.count == 0 && n >= 3
    modifies random
    ensures random.Valid() && random.count == 2 && 1 <= activation < restoration < n
    ensures activation == OutageStart(n, Drawn(random.seed)(0))
    ensures restoration == OutageEnd(n, activation, Drawn(random.seed)(1))
  {
    hide Mix, StateAfter, SplitMix64.Valid, Drawn;
    var first := random.Next();
    activation := 1 + first % (n - 2);
    var second := random.Next();
    restoration := activation + 1 + second % (n - activation - 1);
  }

  /** Where the process fault comes: one draw among the candidates. */
  method DrawFault(random: SplitMix64, n: nat, activation: nat, restoration: nat) returns (fault: nat)
    requires random.Valid() && random.count == 2 && |Candidates(n, activation, restoration)| > 0
    modifies random
    ensures random.Valid() && random.count == 3
    ensures var candidates := Candidates(n, activation, restoration);
            fault == candidates[Drawn(random.seed)(2) % |candidates|]
  {
    hide Mix, StateAfter, SplitMix64.Valid, Drawn, Candidates;
    var candidates := ListCandidates(n, activation, restoration);
    var third := random.Next();
    fault := candidates[third % |candidates|];
  }

  /** The workload plan of a seed, drawn in order: both transitions, the process fault, then the requests. */
  method Choices(scenario: WorkloadScenario, seed: bv64) returns (plan: WorkloadChoicePlan)
    requires scenario.Valid()
    ensures plan == Plan(scenario, Value(seed), Drawn(seed))
  {
    hide Mix, StateAfter, SplitMix64.Valid, Drawn, Value, Candidates, IsRequest, Requests, OutageStart, OutageEnd;
    var random := new SplitMix64(seed);
    var n := scenario.requestCount;
    var activation, restoration := DrawTransitions(random, n);
    CandidatesExact(n, activation, restoration);
    var fault := DrawFault(random, n, activation, restoration);
    var requests := DrawRequests(random, scenario.payloadBytes, n, 3);
    RequestsAre(requests, scenario.payloadBytes, Drawn(seed));
    plan := WorkloadChoicePlan(Value(seed), fault, activation, restoration, requests);
  }

  /** The network plan of a seed: both transitions, then the requests. */
  method NetworkChoices(scenario: Network.Scenario, seed: bv64) returns (plan: Network.ChoicePlan)
    requires scenario.Valid()
    ensures plan == Network.Plan(scenario, Value(seed), Drawn(seed))
  {
    hide Mix, StateAfter, SplitMix64.Valid, Drawn, Value, IsRequest, Network.Requests, OutageStart, OutageEnd;
    var random := new SplitMix64(seed);
    var n := scenario.requestCount;
    var activation, restoration := DrawTransitions(random, n);
    var requests := DrawRequests(random, scenario.payloadBytes, n, 2);
    NetworkRequestsAre(requests, scenario.payloadBytes, Drawn(seed));
    plan := Network.ChoicePlan(Value(seed), activation, restoration, requests);
  }

  // ---- Accepting a scenario -----------------------------------------------------------------------

  /** Why a scenario is refused. */
  datatype Unfit = UnknownVersion | BadName | BadRequestCount | BadPayload | OverBudget | BadBounds | BadPeer

  method Validate(scenario: WorkloadScenario) returns (refused: Option<Unfit>)
    ensures refused.None? <==> scenario.Valid()
    ensures refused == Some(UnknownVersion) <==> scenario.version != 1
    ensures refused == Some(BadName) <==> scenario.version == 1 && !(1 <= |scenario.name| <= 256)
    ensures refused.Some? && refused.value.BadRequestCount? ==> !(4 <= scenario.requestCount <= 256)
    ensures refused.Some? && refused.value.BadPayload? ==> !(1 <= scenario.payloadBytes <= 63)
    ensures refused.Some? && refused.value.OverBudget? ==> scenario.requestCount * scenario.payloadBytes > 1048576
    ensures refused.Some? && refused.value.BadBounds? ==>
              scenario.outageEventBound == 0 || scenario.livenessEventBound < 2
    ensures refused.Some? && refused.value.BadPeer? ==> scenario.fixturePeer != "10.0.2.2"
  {
    if scenario.version != 1 {
      return Some(UnknownVersion);
    }
    if |scenario.name| == 0 || |scenario.name| > MAX_SCENARIO_NAME_BYTES {
      return Some(BadName);
    }
    if scenario.requestCount < MIN_WORKLOAD_REQUEST_COUNT || scenario.requestCount > MAX_REQUEST_COUNT {
      return Some(BadRequestCount);
    }
    if scenario.payloadBytes == 0 || scenario.payloadBytes > MAX_WORKLOAD_PAYLOAD_BYTES {
      return Some(BadPayload);
    }
    if scenario.requestCount * scenario.payloadBytes > MAX_TOTAL_PAYLOAD_BYTES {
      return Some(OverBudget);
    }
    if scenario.outageEventBound == 0 || scenario.livenessEventBound < 2 {
      return Some(BadBounds);
    }
    if scenario.fixturePeer != "10.0.2.2" {
      return Some(BadPeer);
    }
    refused := None;
  }

  method ValidateNetwork(scenario: Network.Scenario) returns (refused: Option<Unfit>)
    ensures refused.None? <==> scenario.Valid()
    ensures refused == Some(UnknownVersion) <==> scenario.version != 1
    ensures refused == Some(BadName) <==> scenario.version == 1 && !(1 <= |scenario.name| <= 256)
    ensures refused.Some? && refused.value.BadRequestCount? ==> !(3 <= scenario.requestCount <= 256)
    ensures refused.Some? && refused.value.BadPayload? ==> !(1 <= scenario.payloadBytes <= 16384)
    ensures refused.Some? && refused.value.OverBudget? ==> scenario.requestCount * scenario.payloadBytes > 1048576
    ensures refused.Some? && refused.value.BadBounds? ==>
              scenario.outageEventBound == 0 || scenario.livenessEventBound < 2
    ensures refused.Some? && refused.value.BadPeer? ==> scenario.fixturePeer != "10.0.2.2"
  {
    if scenario.version != 1 {
      return Some(UnknownVersion);
    }
    if |scenario.name| == 0 || |scenario.name| > MAX_SCENARIO_NAME_BYTES {
      return Some(BadName);
    }
    if scenario.requestCount < Network.MIN_REQUEST_COUNT || scenario.requestCount > MAX_REQUEST_COUNT {
      return Some(BadRequestCount);
    }
    if scenario.payloadBytes == 0 || scenario.payloadBytes > Network.MAX_PAYLOAD_BYTES {
      return Some(BadPayload);
    }
    if scenario.requestCount * scenario.payloadBytes > MAX_TOTAL_PAYLOAD_BYTES {
      return Some(OverBudget);
    }
    if scenario.outageEventBound == 0 || scenario.livenessEventBound < 2 {
      return Some(BadBounds);
    }
    if scenario.fixturePeer != "10.0.2.2" {
      return Some(BadPeer);
    }
    refused := None;
  }
}
