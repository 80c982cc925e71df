/** The plan a seed derives from a workload scenario. The generator is a parameter: `draw(k)` is the
    value of its draw number `k`, so what is proved here holds whatever a seed produces. */
module Plans {
  import opened Protocol
  import opened Scenarios

  function Shift(value: nat, count: nat): nat {
    if count == 0 then value else Shift(value, count - 1) / 256
  }

  function Pair(b: nat): (s: Bytes)
    requires b < 256
    ensures |s| == 2 && Token(s)
  {
    [DIGITS[b / 16], DIGITS[b % 16]]
  }

  /** Hexadecimal payload bytes, eight bytes to a draw, low byte first. */
  function HexBytes(draw: nat -> nat, position: nat, length: nat): (s: Bytes)
    ensures |s| == 2 * length && Token(s)
  {
    if length == 0 then []
    else
      var i := length - 1;
      HexBytes(draw, position, i) + Pair(Shift(draw(position + i / 8), i % 8) % 256)
  }

  function Draws(length: nat): nat {
    (length + 7) / 8
  }

  /** The draw that a request begins with, when `base` draws come before the requests. */
  function Position(base: nat, payloadBytes: nat, index: nat): nat {
    base + index * (1 + Draws(payloadBytes))
  }

  lemma PositionNext(base: nat, payloadBytes: nat, index: nat)
    ensures Position(base, payloadBytes, index + 1) == Position(base, payloadBytes, index) + 1 + Draws(payloadBytes)
    ensures Position(base, payloadBytes, 0) == base
  {}

  /** The request indices at which the process fault may be placed. */
  function Candidates(count: nat, activation: nat, restoration: nat): seq<nat> {
    if count <= 1 then []
    else
      Candidates(count - 1, activation, restoration)
      + if count - 1 != activation && count - 1 != restoration then [count - 1] else []
  }

  function RequestId(index: nat, nonce: nat): (s: Bytes)
    requires index < 10000
    ensures |s| == REQUEST_ID_BYTES && s[8..12] == Decimal4(index) && "request-" <= s
  {
    "request-" + Decimal4(index) + "-" + HexFixed(nonce, 16)
  }

  function RequestAt(payloadBytes: nat, draw: nat -> nat, index: nat): PlannedRequest
    requires index < 10000
  {
    var position := Position(3, payloadBytes, index);
    PlannedRequest(RequestId(index, draw(position)), HexBytes(draw, position + 1, payloadBytes))
  }

  function Requests(payloadBytes: nat, draw: nat -> nat, count: nat): (r: seq<PlannedRequest>)
    requires count <= 10000
    ensures |r| == count
    ensures forall i | 0 <= i < count :: r[i] == RequestAt(payloadBytes, draw, i)
  {
    if count == 0 then []
    else Requests(payloadBytes, draw, count - 1) + [RequestAt(payloadBytes, draw, count - 1)]
  }

  lemma {:induction false} CandidatesExact(count: nat, activation: nat, restoration: nat)
    ensures var c := Candidates(count, activation, restoration);
            && (forall x :: x in c <==> 1 <= x < count && x != activation && x != restoration)
            && |c| >= count - 3
            && (count <= activation || count <= restoration ==> |c| >= count - 2)
            && (count <= activation && count <= restoration ==> |c| >= count - 1)
  {
    if count > 1 { CandidatesExact(count - 1, activation, restoration); }
  }

  /** Where the outage begins, for a draw: after the first request and before the last. */
  function OutageStart(n: nat, draw: nat): (a: nat)
    requires n >= 3
    ensures 1 <= a < n - 1
  {
    1 + draw % (n - 2)
  }

  /** Where it ends: after its beginning. */
  function OutageEnd(n: nat, activation: nat, draw: nat): (r: nat)
    requires activation < n - 1
    ensures activation < r < n
  {
    activation + 1 + draw % (n - activation - 1)
  }

  /** The derived plan. */
  function Plan(scenario: WorkloadScenario, seed: nat, draw: nat -> nat): WorkloadChoicePlan
    requires scenario.Valid()
  {
    var n := scenario.requestCount;
    var activation := OutageStart(n, draw(0));
    var restoration := OutageEnd(n, activation, draw(1));
    var candidates := Candidates(n, activation, restoration);
    CandidatesExact(n, activation, restoration);
    WorkloadChoicePlan(seed, candidates[draw(2) % |candidates|], activation, restoration,
                       Requests(scenario.payloadBytes, draw, n))
  }

  function Power16(width: nat): nat {
    if width == 0 then 1 else 16 * Power16(width - 1)
  }

  /** Fixed-width hexadecimal tells numbers apart. */
  lemma {:induction false} HexFixedInjective(n: nat, m: nat, width: nat)
    requires n < Power16(width) && m < Power16(width) && HexFixed(n, width) == HexFixed(m, width)
    ensures n == m
  {
    if width > 0 {
      var a, b := HexFixed(n, width), HexFixed(m, width);
      assert a[..width - 1] == HexFixed(n / 16, width - 1) && b[..width - 1] == HexFixed(m / 16, width - 1);
      HexFixedInjective(n / 16, m / 16, width - 1);
      DigitsDiffer(n % 16, m % 16);
      assert DIGITS[n % 16] == a[width - 1] == b[width - 1] == DIGITS[m % 16];
    }
  }

  lemma DigitsDiffer(i: nat, j: nat)
    requires i < 16 && j < 16
    ensures DIGITS[i] == DIGITS[j] ==> i == j
  {}

  lemma SameDigit(i: nat, j: nat)
    requires i / 10 == j / 10 && i % 10 == j % 10
    ensures i == j
  {}

  lemma Decimal4Injective(i: nat, j: nat)
    requires i < 10000 && j < 10000 && Decimal4(i) == Decimal4(j)
    ensures i == j
  {
    var a, b := Decimal4(i), Decimal4(j);
    assert a[0] == b[0] && a[1] == b[1] && a[2] == b[2] && a[3] == b[3];
    SameDigit(i / 10 / 10, j / 10 / 10);
    SameDigit(i / 10, j / 10);
    SameDigit(i, j);
  }

  lemma RequestIdIsToken(index: nat, nonce: nat)
    requires index < 10000
    ensures Token(RequestId(index, nonce))
  {}

  lemma RequestIsValid(payloadBytes: nat, draw: nat -> nat, index: nat)
    requires 1 <= payloadBytes <= MAX_WORKLOAD_PAYLOAD_BYTES && index < 10000
    ensures RequestAt(payloadBytes, draw, index).Valid()
    ensures RequestAt(payloadBytes, draw, index).requestId[8..12] == Decimal4(index)
  {
    hide HexBytes, HexFixed, Decimal4, RequestId;
    RequestIdIsToken(index, draw(Position(3, payloadBytes, index)));
  }

  lemma RequestsAreDistinct(requests: seq<PlannedRequest>)
    requires |requests| <= 10000
    requires forall i | 0 <= i < |requests| :: requests[i].Valid() && requests[i].requestId[8..12] == Decimal4(i)
    ensures RequestsValid(requests)
  {
    forall i, j | 0 <= i < j < |requests| ensures requests[i].requestId != requests[j].requestId {
      if requests[i].requestId == requests[j].requestId { Decimal4Injective(i, j); }
    }
  }

  lemma RequestsAreValid(payloadBytes: nat, draw: nat -> nat, count: nat)
    requires 1 <= payloadBytes <= MAX_WORKLOAD_PAYLOAD_BYTES && count <= 10000
    ensures RequestsValid(Requests(payloadBytes, draw, count))
  {
    forall i | 0 <= i < count { RequestIsValid(payloadBytes, draw, i); }
    RequestsAreDistinct(Requests(payloadBytes, draw, count));
  }

  /** For every scenario that preparation accepts and every seed, the plan is well formed. */
  lemma PlanIsValid(scenario: WorkloadScenario, seed: nat, draw: nat -> nat)
    requires scenario.Valid() && seed <= U64_MAX
    ensures Plan(scenario, seed, draw).Valid()
  {
    var plan := Plan(scenario, seed, draw);
    var candidates := Candidates(scenario.requestCount, plan.activationIndex, plan.restorationIndex);
    CandidatesExact(scenario.requestCount, plan.activationIndex, plan.restorationIndex);
    assert plan.faultIndex in candidates;
    RequestsAreValid(scenario.payloadBytes, draw, scenario.requestCount);
  }
}
