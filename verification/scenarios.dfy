/** Workload scenarios and the plans that a seed derives from them. */
module Scenarios {
  import opened Protocol

  const MAX_SCENARIO_NAME_BYTES: nat := 256
  const MIN_WORKLOAD_REQUEST_COUNT: nat := 4
  const MAX_REQUEST_COUNT: nat := 256
  const MAX_WORKLOAD_PAYLOAD_BYTES: nat := 63
  const MAX_TOTAL_PAYLOAD_BYTES: nat := 1024 * 1024

  datatype WorkloadScenario = WorkloadScenario(
    version: nat, name: string, requestCount: nat, payloadBytes: nat, fixturePeer: string,
    outageEventBound: nat, livenessEventBound: nat, corruptResponses: bool)
  {
    /** Accepts exactly the scenarios that preparation accepts. */
    predicate Valid() {
      && version == 1
      && 1 <= |name| <= MAX_SCENARIO_NAME_BYTES
      && MIN_WORKLOAD_REQUEST_COUNT <= requestCount <= MAX_REQUEST_COUNT
      && 1 <= payloadBytes <= MAX_WORKLOAD_PAYLOAD_BYTES
      && requestCount * payloadBytes <= MAX_TOTAL_PAYLOAD_BYTES
      && outageEventBound >= 1 && livenessEventBound >= 2
      && fixturePeer == FIXTURE_PEER
    }

    function PeerCidr(): string {
      fixturePeer + "/32"
    }
  }

  datatype PlannedRequest = PlannedRequest(requestId: Bytes, payload: Bytes)
  {
    predicate Valid() {
      && Token(requestId) && |requestId| == REQUEST_ID_BYTES && "request-" <= requestId
      && Token(payload) && 1 <= |payload| <= 2 * MAX_WORKLOAD_PAYLOAD_BYTES
    }
  }

  datatype WorkloadChoicePlan = WorkloadChoicePlan(
    seed: nat, faultIndex: nat, activationIndex: nat, restorationIndex: nat,
    requests: seq<PlannedRequest>)
  {
    function Phase(index: nat): RequestPhase {
      if index < activationIndex then PreOutage
      else if index < restorationIndex then Outage
      else Recovery
    }

    /** What every derived plan satisfies: the outage begins after a request and ends before the
        last one, the process fault lies strictly inside and on neither transition, and request
        identifiers are distinct printable tokens. */
    predicate Valid() {
      seed <= U64_MAX && IndicesValid() && RequestsValid(requests)
    }

    predicate IndicesValid() {
      && MIN_WORKLOAD_REQUEST_COUNT <= |requests| <= MAX_REQUEST_COUNT
      && 1 <= activationIndex < restorationIndex < |requests|
      && 1 <= faultIndex < |requests|
      && faultIndex != activationIndex && faultIndex != restorationIndex
    }
  }

  predicate RequestsValid(requests: seq<PlannedRequest>) {
    && (forall i | 0 <= i < |requests| :: requests[i].Valid())
    && DistinctIds(requests)
  }

  predicate DistinctIds(requests: seq<PlannedRequest>) {
    forall i, j | 0 <= i < j < |requests| :: requests[i].requestId != requests[j].requestId
  }

  // ---- The fixture's files -----------------------------------------------------

  /** The payload a fixture file holds: a corrupted scenario spoils the first one only. */
  function Served(requests: seq<PlannedRequest>, corrupt: bool, index: nat): Bytes
    requires index < |requests|
  {
    requests[index].payload + if corrupt && index == 0 then "-corrupted" else ""
  }

  /** What the fixture directory serves, by request identifier. */
  function FixtureEntries(requests: seq<PlannedRequest>, corrupt: bool, count: nat): map<string, string>
    requires count <= |requests|
  {
    if count == 0 then map[]
    else FixtureEntries(requests, corrupt,
                        count - 1)[requests[count - 1].requestId := Served(requests, corrupt, count - 1)]
  }

  /** Each request finds its own file. */
  lemma {:induction false} FixtureServes(requests: seq<PlannedRequest>, corrupt: bool, count: nat, i: nat)
    requires DistinctIds(requests) && i < count <= |requests|
    ensures var id := requests[i].requestId;
            && id in FixtureEntries(requests, corrupt, count)
            && FixtureEntries(requests, corrupt, count)[id] == Served(requests, corrupt, i)
  {
    if i < count - 1 { FixtureServes(requests, corrupt, count - 1, i); }
  }

  lemma ServedWhole(requests: seq<PlannedRequest>, i: nat)
    requires i < |requests|
    ensures Served(requests, false, i) == requests[i].payload
    ensures i > 0 ==> Served(requests, true, i) == requests[i].payload
    ensures i == 0 ==> Served(requests, true, i) != requests[i].payload
  {
    assert requests[i].payload + "" == requests[i].payload;
    assert |Served(requests, true, 0)| > |requests[0].payload|;
  }

  /** The length of `request-0000-` and sixteen hexadecimal digits. */
  const REQUEST_ID_BYTES: nat := 29

  /** The characters the fixture accepts in a token. */
  predicate TokenChar(c: char) {
    'a' <= c <= 'z' || '0' <= c <= '9' || c == '-'
  }

  predicate Token(s: string) {
    forall i | 0 <= i < |s| :: TokenChar(s[i])
  }

  // ---- Formatting ----------------------------------------------------------

  function Digit(n: nat): byte
    requires n < 10
  {
    ('0' as int + n) as char
  }

  function Decimal(n: nat): Bytes {
    if n < 10 then [Digit(n)] else Decimal(n / 10) + [Digit(n % 10)]
  }

  /** Four decimal digits, the width a request index is printed with. */
  function Decimal4(n: nat): (s: Bytes)
    requires n < 10000
    ensures |s| == 4
  {
    [Digit(n / 10 / 10 / 10), Digit(n / 10 / 10 % 10), Digit(n / 10 % 10), Digit(n % 10)]
  }

  /** Lowercase hexadecimal with leading zeros. */
  function HexFixed(n: nat, width: nat): (s: Bytes)
    ensures |s| == width
    ensures Token(s)
  {
    if width == 0 then [] else HexFixed(n / 16, width - 1) + [DIGITS[n % 16]]
  }
}
