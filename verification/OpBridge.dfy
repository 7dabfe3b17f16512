/** Withdrawal status from L1: the batch computation, the single one, and the lifecycle they report. */
module OpBridge {
  import opened Bytes
  import opened OrderedMap
  import opened WithdrawalHash

  // ---------- time ----------

  /** A protobuf Timestamp or Duration. */
  datatype Time = Time(seconds: int, nanos: int)

  const MILLION := 1_000_000

  /** `timestampToMs` and `durationToMs` */
  function ToMs(t: Time): int {
    t.seconds * 1000 + t.nanos / MILLION
  }

  function ToNanos(t: Time): int {
    t.seconds * 1_000_000_000 + t.nanos
  }

  /** The instant computed for claiming is never later than block time plus period, and less than
      two milliseconds earlier. */
  lemma ClaimableInstant(blockTime: Time, period: Time)
    ensures var exact := ToNanos(blockTime) + ToNanos(period);
            var computed := (ToMs(blockTime) + ToMs(period)) * MILLION;
            computed <= exact < computed + 2 * MILLION
  {
    assert ToMs(blockTime) * MILLION <= ToNanos(blockTime) < (ToMs(blockTime) + 1) * MILLION;
    assert ToMs(period) * MILLION <= ToNanos(period) < (ToMs(period) + 1) * MILLION;
  }

  // ---------- L1 as its queries see it ----------

  /** A withdrawal as the executor reports it. */
  datatype Raw = Raw(w: Withdrawal, outputIndex: int)

  datatype Query = BridgeQuery | LatestQuery | ProposalQuery(index: int) | ClaimedQuery(hash: seq<byte>)

  /** The answer to a query: a value, the NotFound error, or any other error. */
  datatype Reply<T> = Found(value: T) | NotFound | Failed

  /** One moment of L1 for one bridge. `outputs` gives the block time of each proposal, if it has
      one; `latest` is the highest proposal, if there is any. The queries in `down` fail. Where there
      is nothing to report, a node answers with an empty value or with NotFound. */
  datatype L1 = L1(
    period: Option<Time>,
    outputs: map<int, Option<Time>>,
    latest: seq<int>,
    claimed: set<seq<byte>>,
    down: set<Query>,
    silent: bool,
    sha3: seq<byte> -> seq<byte>)
  {
    ghost predicate Valid() {
      && (outputs == map[] ==> latest == [])
      && (outputs != map[] ==> |latest| == 1 && latest[0] in outputs && forall i :: i in outputs ==> i <= latest[0])
    }

    function Hash(w: Withdrawal): seq<byte> {
      sha3(sha3(Preimage(sha3, w)))
    }

    function Bridge(): Reply<Option<Time>> {
      if BridgeQuery in down then Failed else Found(period)
    }

    /** `outputProposals` with `reverse: true, limit: 1` */
    function OutputProposals(): Reply<seq<int>> {
      if LatestQuery in down then Failed else if latest == [] && silent then NotFound else Found(latest)
    }

    function OutputProposal(i: int): Reply<Option<Time>> {
      if ProposalQuery(i) in down then Failed else if i in outputs then Found(outputs[i]) else NotFound
    }

    function ClaimedReply(hash: seq<byte>): Reply<bool> {
      if ClaimedQuery(hash) in down then Failed else if hash !in claimed && silent then NotFound else Found(hash in claimed)
    }
  }

  datatype Status = Pending | Waiting(claimableAt: int) | Claimable | Claimed

  datatype Result<T> = Ok(value: T) | Error

  // ---------- determineWithdrawalStatus and its two callers ----------

  function DetermineStatus(l1: L1, raw: Raw, timestamps: map<int, int>, latest: int, periodMs: int, now: int): Result<Status> {
    if raw.outputIndex == 0 || raw.outputIndex > latest then Ok(Pending)
    else if raw.outputIndex !in timestamps then Ok(Pending)
    else
      var claimableAt := timestamps[raw.outputIndex] + periodMs;
      if claimableAt > now then Ok(Waiting(claimableAt))
      else
        match l1.ClaimedReply(l1.Hash(raw.w))
        case Failed => Error
        case NotFound => Ok(Claimable)
        case Found(c) => Ok(if c then Claimed else Claimable)
  }

  /** The timestamps of the proposals queried; Error if a query fails. */
  function Timestamps(l1: L1, indices: seq<int>): Result<map<int, int>> {
    if indices == [] then Ok(map[])
    else
      var n := |indices| - 1;
      match Timestamps(l1, indices[..n])
      case Error => Error
      case Ok(m) =>
        match l1.OutputProposal(indices[n])
        case Failed => Error
        case NotFound => Ok(m)
        case Found(None) => Ok(m)
        case Found(Some(t)) => Ok(m[indices[n] := ToMs(t)])
  }

  /** The proposals asked for: each index that is above 0 and at most the latest, once. */
  function Wanted(raws: seq<Raw>, latest: int): seq<int> {
    if raws == [] then []
    else
      var n, rest := |raws| - 1, Wanted(raws[..|raws| - 1], latest);
      var i := raws[n].outputIndex;
      if 0 < i <= latest && i !in rest then rest + [i] else rest
  }

  function Statuses(l1: L1, raws: seq<Raw>, timestamps: map<int, int>, latest: int, periodMs: int, now: int): Result<seq<Status>> {
    if raws == [] then Ok([])
    else
      var n := |raws| - 1;
      match Statuses(l1, raws[..n], timestamps, latest, periodMs, now)
      case Error => Error
      case Ok(ss) =>
        match DetermineStatus(l1, raws[n], timestamps, latest, periodMs, now)
        case Error => Error
        case Ok(s) => Ok(ss + [s])
  }

  function LatestIndex(l1: L1): Result<int> {
    match l1.OutputProposals()
    case Failed => Error
    case NotFound => Ok(0)
    case Found(proposals) => Ok(if proposals == [] then 0 else proposals[0])
  }

  /** The statuses of a list of withdrawals, in its order. */
  function BatchStatuses(l1: L1, raws: seq<Raw>, now: int): Result<seq<Status>> {
    if raws == [] then Ok([])
    else
      match l1.Bridge()
      case Found(Some(period)) =>
        (match LatestIndex(l1)
         case Error => Error
         case Ok(latest) =>
           match Timestamps(l1, Wanted(raws, latest))
           case Error => Error
           case Ok(timestamps) => Statuses(l1, raws, timestamps, latest, ToMs(period), now))
      case _ => Error
  }

  /** The status of one withdrawal. */
  function SingleStatus(l1: L1, raw: Raw, now: int): Result<Status> {
    match l1.Bridge()
    case Found(Some(period)) =>
      if raw.outputIndex <= 0 then DetermineStatus(l1, raw, map[], 0, ToMs(period), now)
      else
        (match l1.OutputProposal(raw.outputIndex)
         case Failed => Error
         case Found(Some(t)) =>
           DetermineStatus(l1, raw, map[raw.outputIndex := ToMs(t)], raw.outputIndex, ToMs(period), now)
         case _ => DetermineStatus(l1, raw, map[], 0, ToMs(period), now))
    case _ => Error
  }

  /** `getWithdrawals`, after the executor has listed the withdrawals. */
  method GetWithdrawals(l1: L1, raws: seq<Raw>, now: int) returns (r: Result<seq<Status>>)
    ensures r == BatchStatuses(l1, raws, now)
  {
    if raws == [] {
      return Ok([]);
    }
    var bridge := l1.Bridge();
    if !bridge.Found? || bridge.value.None? {
      return Error;
    }
    var periodMs := ToMs(bridge.value.value);
    var latestProposedIndex := 0;
    var proposals := l1.OutputProposals();
    if proposals.Failed? {
      return Error;
    }
    if proposals.Found? && |proposals.value| > 0 {
      latestProposedIndex := proposals.value[0];
    }
    var nonPending: seq<int> := [];
    for k := 0 to |raws|
      invariant nonPending == Wanted(raws[..k], latestProposedIndex)
    {
      assert raws[..k + 1][..k] == raws[..k];
      var i := raws[k].outputIndex;
      if 0 < i <= latestProposedIndex && i !in nonPending {
        nonPending := nonPending + [i];
      }
    }
    assert raws[..|raws|] == raws;
    var outputTimestamps := QueryTimestamps(l1, nonPending);
    if outputTimestamps.Error? {
      return Error;
    }
    r := DetermineAll(l1, raws, outputTimestamps.value, latestProposedIndex, periodMs, now);
  }

  method QueryTimestamps(l1: L1, nonPending: seq<int>) returns (r: Result<map<int, int>>)
    ensures r == Timestamps(l1, nonPending)
  {
    var outputTimestamps: map<int, int> := map[];
    for k := 0 to |nonPending|
      invariant Timestamps(l1, nonPending[..k]) == Ok(outputTimestamps)
    {
      assert nonPending[..k + 1][..k] == nonPending[..k];
      var reply := l1.OutputProposal(nonPending[k]);
      if reply.Failed? {
        TimestampsFail(l1, nonPending, k + 1);
        return Error;
      }
      if reply.Found? && reply.value.Some? {
        outputTimestamps := outputTimestamps[nonPending[k] := ToMs(reply.value.value)];
      }
    }
    assert nonPending[..|nonPending|] == nonPending;
    r := Ok(outputTimestamps);
  }

  method DetermineAll(l1: L1, raws: seq<Raw>, timestamps: map<int, int>, latest: int, periodMs: int, now: int)
    returns (r: Result<seq<Status>>)
    ensures r == Statuses(l1, raws, timestamps, latest, periodMs, now)
  {
    var statuses := [];
    for k := 0 to |raws|
      invariant Statuses(l1, raws[..k], timestamps, latest, periodMs, now) == Ok(statuses)
    {
      assert raws[..k + 1][..k] == raws[..k];
      var status := DetermineStatus(l1, raws[k], timestamps, latest, periodMs, now);
      if status.Error? {
        StatusesFail(l1, raws, timestamps, latest, periodMs, now, k + 1);
        return Error;
      }
      statuses := statuses + [status.value];
    }
    assert raws[..|raws|] == raws;
    r := Ok(statuses);
  }

  lemma {:induction false} TimestampsFail(l1: L1, indices: seq<int>, n: nat)
    requires n <= |indices| && Timestamps(l1, indices[..n]).Error?
    ensures Timestamps(l1, indices).Error?
    decreases |indices| - n
  {
    if n < |indices| {
      assert indices[..n + 1][..n] == indices[..n];
      TimestampsFail(l1, indices, n + 1);
    } else {
      assert indices[..n] == indices;
    }
  }

  lemma {:induction false} StatusesFail(l1: L1, raws: seq<Raw>, ts: map<int, int>, latest: int, periodMs: int, now: int, n: nat)
    requires n <= |raws| && Statuses(l1, raws[..n], ts, latest, periodMs, now).Error?
    ensures Statuses(l1, raws, ts, latest, periodMs, now).Error?
    decreases |raws| - n
  {
    if n < |raws| {
      assert raws[..n + 1][..n] == raws[..n];
      StatusesFail(l1, raws, ts, latest, periodMs, now, n + 1);
    } else {
      assert raws[..n] == raws;
    }
  }

  /** `getWithdrawalStatus`, after the executor has found the withdrawal. */
  method GetWithdrawalStatus(l1: L1, raw: Raw, now: int) returns (r: Result<Status>)
    ensures r == SingleStatus(l1, raw, now)
  {
    var bridge := l1.Bridge();
    if !bridge.Found? || bridge.value.None? {
      return Error;
    }
    var periodMs := ToMs(bridge.value.value);
    var outputTimestamps: map<int, int> := map[];
    var latestProposedIndex := 0;
    if raw.outputIndex > 0 {
      var reply := l1.OutputProposal(raw.outputIndex);
      if reply.Failed? {
        return Error;
      }
      if reply.Found? && reply.value.Some? {
        outputTimestamps := outputTimestamps[raw.outputIndex := ToMs(reply.value.value)];
        latestProposedIndex := raw.outputIndex;
      }
    }
    r := DetermineStatus(l1, raw, outputTimestamps, latestProposedIndex, periodMs, now);
  }

  // ---------- both computations report the state of L1 ----------

  /** The block time of the proposal that holds a withdrawal. */
  function ProposedAt(l1: L1, raw: Raw): Option<Time> {
    if raw.outputIndex > 0 && raw.outputIndex in l1.outputs then l1.outputs[raw.outputIndex] else None
  }

  /** The status of a withdrawal on L1. */
  function StatusOn(l1: L1, raw: Raw, period: Time, now: int): Status {
    match ProposedAt(l1, raw)
    case None => Pending
    case Some(t) =>
      var claimableAt := ToMs(t) + ToMs(period);
      if claimableAt > now then Waiting(claimableAt)
      else if l1.Hash(raw.w) in l1.claimed then Claimed
      else Claimable
  }

  lemma SingleReports(l1: L1, raw: Raw, now: int)
    requires SingleStatus(l1, raw, now).Ok?
    ensures l1.period.Some? && SingleStatus(l1, raw, now) == Ok(StatusOn(l1, raw, l1.period.value, now))
  {
  }

  /** The times of exactly the proposals asked for that have one. */
  ghost predicate TimesOf(l1: L1, indices: seq<int>, ts: map<int, int>) {
    forall i ::
      && (i in ts <==> i in indices && i in l1.outputs && l1.outputs[i].Some?)
      && (i in ts ==> ts[i] == ToMs(l1.outputs[i].value))
  }

  lemma TimesOfNext(l1: L1, indices: seq<int>, ts: map<int, int>, i: int)
    requires TimesOf(l1, indices, ts)
    ensures TimesOf(l1, indices + [i], if i in l1.outputs && l1.outputs[i].Some? then ts[i := ToMs(l1.outputs[i].value)] else ts)
  {
  }

  lemma {:induction false} TimestampsHold(l1: L1, indices: seq<int>)
    requires Timestamps(l1, indices).Ok?
    ensures TimesOf(l1, indices, Timestamps(l1, indices).value)
  {
    if indices != [] {
      var n := |indices| - 1;
      TimestampsHold(l1, indices[..n]);
      assert indices == indices[..n] + [indices[n]];
      TimesOfNext(l1, indices[..n], Timestamps(l1, indices[..n]).value, indices[n]);
    }
  }

  lemma {:induction false} WantedHolds(raws: seq<Raw>, latest: int)
    ensures forall i :: i in Wanted(raws, latest) <==> 0 < i <= latest && exists k :: 0 <= k < |raws| && raws[k].outputIndex == i
  {
    if raws != [] {
      var n := |raws| - 1;
      WantedHolds(raws[..n], latest);
      assert forall k :: 0 <= k < n ==> raws[..n][k] == raws[k];
      assert raws[n].outputIndex == raws[n].outputIndex;
    }
  }

  lemma {:induction false} StatusesHold(l1: L1, raws: seq<Raw>, ts: map<int, int>, latest: int, periodMs: int, now: int)
    requires Statuses(l1, raws, ts, latest, periodMs, now).Ok?
    ensures var ss := Statuses(l1, raws, ts, latest, periodMs, now).value;
            && |ss| == |raws|
            && forall k :: 0 <= k < |raws| ==> Ok(ss[k]) == DetermineStatus(l1, raws[k], ts, latest, periodMs, now)
  {
    if raws != [] {
      StatusesHold(l1, raws[..|raws| - 1], ts, latest, periodMs, now);
    }
  }

  /** A batch that succeeds reports the state of L1 for every withdrawal, in order. */
  lemma BatchReports(l1: L1, raws: seq<Raw>, now: int)
    requires l1.Valid() && BatchStatuses(l1, raws, now).Ok?
    ensures |BatchStatuses(l1, raws, now).value| == |raws|
    ensures raws != [] ==> l1.period.Some?
    ensures forall k :: 0 <= k < |raws| ==> BatchStatuses(l1, raws, now).value[k] == StatusOn(l1, raws[k], l1.period.value, now)
  {
    if raws == [] {
      return;
    }
    var latest := LatestIndex(l1).value;
    var wanted := Wanted(raws, latest);
    var ts := Timestamps(l1, wanted).value;
    var ss := BatchStatuses(l1, raws, now).value;
    TimestampsHold(l1, wanted);
    WantedHolds(raws, latest);
    LatestHolds(l1);
    StatusesHold(l1, raws, ts, latest, ToMs(l1.period.value), now);
    forall k | 0 <= k < |raws| ensures ss[k] == StatusOn(l1, raws[k], l1.period.value, now) {
      assert raws[k].outputIndex in wanted <==> 0 < raws[k].outputIndex <= latest;
      OneOfBatch(l1, raws[k], wanted, ts, latest, now, ss[k]);
    }
  }

  /** No proposal lies above the latest index. */
  lemma LatestHolds(l1: L1)
    requires l1.Valid() && LatestIndex(l1).Ok?
    ensures forall i :: i in l1.outputs && i > 0 ==> i <= LatestIndex(l1).value
  {
  }

  /** The status the batch gives one of its withdrawals. */
  lemma OneOfBatch(l1: L1, raw: Raw, wanted: seq<int>, ts: map<int, int>, latest: int, now: int, s: Status)
    requires l1.period.Some? && TimesOf(l1, wanted, ts)
    requires forall i :: i in l1.outputs && i > 0 ==> i <= latest
    requires raw.outputIndex in wanted <==> 0 < raw.outputIndex <= latest
    requires DetermineStatus(l1, raw, ts, latest, ToMs(l1.period.value), now) == Ok(s)
    ensures s == StatusOn(l1, raw, l1.period.value, now)
  {
    var i := raw.outputIndex;
    assert i in ts <==> ProposedAt(l1, raw).Some?;
  }

  /** On one snapshot of L1 and one clock reading, the batch gives every withdrawal the status that
      asking for it alone gives, in input order, wherever both succeed. */
  lemma BatchAgreesWithSingle(l1: L1, raws: seq<Raw>, now: int, k: nat)
    requires l1.Valid() && BatchStatuses(l1, raws, now).Ok? && k < |raws|
    requires SingleStatus(l1, raws[k], now).Ok?
    ensures |BatchStatuses(l1, raws, now).value| == |raws|
    ensures SingleStatus(l1, raws[k], now) == Ok(BatchStatuses(l1, raws, now).value[k])
  {
    BatchReports(l1, raws, now);
    SingleReports(l1, raws[k], now);
  }

  /** The status cannot be told without asking whether the withdrawal is claimed. */
  predicate IsDue(l1: L1, raw: Raw, now: int) {
    && l1.period.Some? && ProposedAt(l1, raw).Some?
    && ToMs(ProposedAt(l1, raw).value) + ToMs(l1.period.value) <= now
  }

  predicate ClaimedAnswers(l1: L1, raw: Raw, now: int) {
    IsDue(l1, raw, now) ==> ClaimedQuery(l1.Hash(raw.w)) !in l1.down
  }

  /** Asking for one withdrawal succeeds exactly when the bridge has a finalisation period and none of
      the queries made for it fails. */
  lemma SingleSucceedsExactly(l1: L1, raw: Raw, now: int)
    ensures SingleStatus(l1, raw, now).Ok? <==>
            && l1.period.Some? && BridgeQuery !in l1.down
            && (raw.outputIndex > 0 ==> ProposalQuery(raw.outputIndex) !in l1.down)
            && ClaimedAnswers(l1, raw, now)
  {
  }

  lemma {:induction false} TimestampsSucceedExactly(l1: L1, indices: seq<int>)
    ensures Timestamps(l1, indices).Ok? <==> forall i :: i in indices ==> ProposalQuery(i) !in l1.down
  {
    if indices != [] {
      var front, last := indices[..|indices| - 1], indices[|indices| - 1];
      TimestampsSucceedExactly(l1, front);
      assert indices == front + [last];
    }
  }

  lemma {:induction false} StatusesSucceedExactly(l1: L1, raws: seq<Raw>, ts: map<int, int>, latest: int, periodMs: int, now: int)
    ensures Statuses(l1, raws, ts, latest, periodMs, now).Ok? <==>
            forall k :: 0 <= k < |raws| ==> DetermineStatus(l1, raws[k], ts, latest, periodMs, now).Ok?
  {
    if raws != [] {
      var front, last := raws[..|raws| - 1], raws[|raws| - 1];
      StatusesSucceedExactly(l1, front, ts, latest, periodMs, now);
      assert forall k :: 0 <= k < |front| ==> raws[k] == front[k];
      assert Statuses(l1, raws, ts, latest, periodMs, now).Ok? <==>
             Statuses(l1, front, ts, latest, periodMs, now).Ok? && DetermineStatus(l1, last, ts, latest, periodMs, now).Ok?;
    }
  }

  lemma DetermineSucceedsExactly(l1: L1, raw: Raw, wanted: seq<int>, ts: map<int, int>, latest: int, now: int)
    requires l1.period.Some? && TimesOf(l1, wanted, ts)
    requires forall i :: i in l1.outputs && i > 0 ==> i <= latest
    requires raw.outputIndex in wanted <==> 0 < raw.outputIndex <= latest
    ensures DetermineStatus(l1, raw, ts, latest, ToMs(l1.period.value), now).Ok? <==> ClaimedAnswers(l1, raw, now)
  {
    assert raw.outputIndex in ts <==> ProposedAt(l1, raw).Some?;
  }

  /** The index of the latest proposal, 0 if there is none. */
  function Latest(l1: L1): int {
    if l1.latest == [] then 0 else l1.latest[0]
  }

  /** Every query the batch makes for this withdrawal is answered. */
  predicate BatchAnswers(l1: L1, raw: Raw, now: int) {
    && (0 < raw.outputIndex <= Latest(l1) ==> ProposalQuery(raw.outputIndex) !in l1.down)
    && ClaimedAnswers(l1, raw, now)
  }

  lemma WantedAnswers(l1: L1, raws: seq<Raw>)
    ensures (forall i :: i in Wanted(raws, Latest(l1)) ==> ProposalQuery(i) !in l1.down) <==>
            forall k :: 0 <= k < |raws| && 0 < raws[k].outputIndex <= Latest(l1) ==> ProposalQuery(raws[k].outputIndex) !in l1.down
  {
    WantedHolds(raws, Latest(l1));
  }

  /** A batch succeeds exactly when the bridge has a finalisation period and neither the two shared
      queries nor any query made for one of its withdrawals fails. */
  lemma BatchSucceedsExactly(l1: L1, raws: seq<Raw>, now: int)
    requires l1.Valid()
    ensures BatchStatuses(l1, raws, now).Ok? <==>
            || raws == []
            || (&& l1.period.Some? && BridgeQuery !in l1.down && LatestQuery !in l1.down
                && forall k :: 0 <= k < |raws| ==> BatchAnswers(l1, raws[k], now))
  {
    if raws != [] && l1.period.Some? && BridgeQuery !in l1.down && LatestQuery !in l1.down {
      var latest := Latest(l1);
      var wanted := Wanted(raws, latest);
      assert LatestIndex(l1) == Ok(latest);
      WantedAnswers(l1, raws);
      TimestampsSucceedExactly(l1, wanted);
      if Timestamps(l1, wanted).Ok? {
        var ts := Timestamps(l1, wanted).value;
        TimestampsHold(l1, wanted);
        WantedHolds(raws, latest);
        LatestHolds(l1);
        StatusesSucceedExactly(l1, raws, ts, latest, ToMs(l1.period.value), now);
        forall k | 0 <= k < |raws|
          ensures DetermineStatus(l1, raws[k], ts, latest, ToMs(l1.period.value), now).Ok? <==> ClaimedAnswers(l1, raws[k], now)
        {
          assert raws[k].outputIndex in wanted <==> 0 < raws[k].outputIndex <= latest;
          DetermineSucceedsExactly(l1, raws[k], wanted, ts, latest, now);
        }
      }
    }
  }

  /** Where asking for one withdrawal succeeds, a batch with it fails exactly when the query for the
      latest proposal fails, or one made for another withdrawal of the batch. */
  lemma BatchFailsAlone(l1: L1, raws: seq<Raw>, now: int, k: nat)
    requires l1.Valid() && k < |raws| && SingleStatus(l1, raws[k], now).Ok?
    ensures BatchStatuses(l1, raws, now).Error? <==>
            LatestQuery in l1.down || exists j :: 0 <= j < |raws| && j != k && !BatchAnswers(l1, raws[j], now)
  {
    SingleSucceedsExactly(l1, raws[k], now);
    BatchSucceedsExactly(l1, raws, now);
    assert BatchAnswers(l1, raws[k], now);
  }

  /** With no query failing, both succeed exactly when the bridge has a finalisation period. */
  lemma BothSucceed(l1: L1, raws: seq<Raw>, now: int, k: nat)
    requires l1.Valid() && l1.down == {} && k < |raws|
    ensures BatchStatuses(l1, raws, now).Ok? <==> l1.period.Some?
    ensures SingleStatus(l1, raws[k], now).Ok? <==> l1.period.Some?
  {
    BatchSucceedsExactly(l1, raws, now);
    SingleSucceedsExactly(l1, raws[k], now);
  }

  // ---------- the lifecycle ----------

  /** L1 and the time in nanoseconds. */
  datatype World = World(l1: L1, now: int)

  /** A new output proposal; time passing; a withdrawal finalised. */
  datatype Event = Append(blockTime: Option<Time>) | Tick(nanos: nat) | Finalize(raw: Raw)

  /** L1 accepts a claim once block time plus period has passed, to the nanosecond. */
  predicate MayFinalize(world: World, raw: Raw, period: Time) {
    match ProposedAt(world.l1, raw)
    case None => false
    case Some(t) => ToNanos(t) + ToNanos(period) <= world.now
  }

  function Advance(world: World, e: Event, period: Time): World {
    match e
    case Append(t) =>
      var next := if world.l1.latest == [] then 1 else world.l1.latest[0] + 1;
      world.(l1 := world.l1.(outputs := world.l1.outputs[next := t], latest := [next]))
    case Tick(d) => world.(now := world.now + d)
    case Finalize(raw) =>
      if MayFinalize(world, raw, period) then
        world.(l1 := world.l1.(claimed := world.l1.claimed + {world.l1.Hash(raw.w)}))
      else world
  }

  function History(world: World, events: seq<Event>, period: Time): World {
    if events == [] then world
    else Advance(History(world, events[..|events| - 1], period), events[|events| - 1], period)
  }

  /** What the SDK reports: `Date.now()` is the time in whole milliseconds. */
  function Reported(world: World, raw: Raw, period: Time): Status {
    StatusOn(world.l1, raw, period, world.now / MILLION)
  }

  function Progress(s: Status): nat {
    match s
    case Pending => 0
    case Waiting(_) => 1
    case Claimable => 2
    case Claimed => 3
  }

  /** When L1 accepts the claim, the SDK has stopped saying pending or waiting. */
  lemma FinalizableIsReported(world: World, raw: Raw, period: Time)
    requires MayFinalize(world, raw, period)
    ensures Reported(world, raw, period).Claimable? || Reported(world, raw, period).Claimed?
  {
    ClaimableInstant(ProposedAt(world.l1, raw).value, period);
  }

  /** What is reported, to the nanosecond: pending exactly without a proposal that has a block time;
      waiting until an instant that is still to come and at most two milliseconds early; and claimable
      or claimed only when at most two milliseconds are missing, claimed exactly if L1 says so. */
  lemma ReportedExactly(world: World, raw: Raw, period: Time)
    ensures var r, proposed := Reported(world, raw, period), ProposedAt(world.l1, raw);
            && (r == Pending <==> proposed.None?)
            && (proposed.Some? ==>
                var exact := ToNanos(proposed.value) + ToNanos(period);
                && (r.Waiting? ==> r.claimableAt * MILLION <= exact < (r.claimableAt + 2) * MILLION && world.now < r.claimableAt * MILLION)
                && (!r.Waiting? ==> exact < world.now + 2 * MILLION)
                && (!r.Waiting? ==> (r == Claimed <==> world.l1.Hash(raw.w) in world.l1.claimed)))
  {
    if ProposedAt(world.l1, raw).Some? {
      ClaimableInstant(ProposedAt(world.l1, raw).value, period);
    }
  }

  lemma AdvanceKeeps(world: World, e: Event, period: Time)
    requires world.l1.Valid()
    ensures Advance(world, e, period).l1.Valid()
    ensures Advance(world, e, period).now >= world.now
    ensures forall i :: i in world.l1.outputs ==>
              i in Advance(world, e, period).l1.outputs && Advance(world, e, period).l1.outputs[i] == world.l1.outputs[i]
    ensures world.l1.claimed <= Advance(world, e, period).l1.claimed
    ensures Advance(world, e, period).l1.sha3 == world.l1.sha3
  {
    var after := Advance(world, e, period).l1;
    if e.Append? {
      var next := if world.l1.latest == [] then 1 else world.l1.latest[0] + 1;
      assert after.latest == [next] && next in after.outputs && after.outputs != map[];
      assert forall i :: i in world.l1.outputs ==> i < next;
      assert forall i :: i in after.outputs ==> i == next || i in world.l1.outputs;
    } else {
      assert after.outputs == world.l1.outputs && after.latest == world.l1.latest;
    }
  }

  /** In no history does the status of a withdrawal move backwards. */
  lemma {:induction false} StatusAdvances(world: World, events: seq<Event>, period: Time, raw: Raw, n: nat)
    requires world.l1.Valid() && n <= |events|
    ensures History(world, events, period).l1.Valid()
    ensures Progress(Reported(History(world, events[..n], period), raw, period)) <=
            Progress(Reported(History(world, events, period), raw, period))
    decreases |events|
  {
    if n == |events| {
      assert events[..n] == events;
      HistoryValid(world, events, period);
    } else {
      var front := events[..|events| - 1];
      assert front[..n] == events[..n];
      StatusAdvances(world, front, period, raw, n);
      var before := History(world, front, period);
      AdvanceKeeps(before, events[|events| - 1], period);
    }
  }

  lemma {:induction false} HistoryValid(world: World, events: seq<Event>, period: Time)
    requires world.l1.Valid()
    ensures History(world, events, period).l1.Valid()
  {
    if events != [] {
      HistoryValid(world, events[..|events| - 1], period);
      AdvanceKeeps(History(world, events[..|events| - 1], period), events[|events| - 1], period);
    }
  }

  /** A finalised withdrawal is reported claimed, then and ever after. */
  lemma FinalizedIsClaimed(world: World, raw: Raw, events: seq<Event>, period: Time)
    requires world.l1.Valid() && MayFinalize(world, raw, period)
    ensures Reported(History(Advance(world, Finalize(raw), period), events, period), raw, period) == Claimed
  {
    var after := Advance(world, Finalize(raw), period);
    ClaimableInstant(ProposedAt(world.l1, raw).value, period);
    assert Reported(after, raw, period) == Claimed;
    StatusAdvances(after, events, period, raw, 0);
    assert events[..0] == [];
  }
}
