/** The anomaly detectors of the gateway: what the audit log and a request say about its risk. */
module Anomaly {
  import opened Wrappers
  import opened PyValues
  import opened AuditLog
  import opened Gateway
  import opened RealTimes

  // ---------- What a record has in common with a request ----------

  /** `request.get("destination") or request.get("merchant")` */
  function Target(request: Dict): PyValue {
    var destination := Get(request, "destination", PyNone);
    if Truth(destination) then destination else Get(request, "merchant", PyNone)
  }

  function RecordAgent(r: AuditRecord): PyValue {
    var agent := Get(r.request, "agent_id", PyNone);
    if Truth(agent) then agent else PyStr(r.agentDid)
  }

  /** The record is of the same agent or of the same wallet. */
  predicate SamePayer(r: AuditRecord, request: Dict) {
    || Get(request, "agent_id", PyNone) == RecordAgent(r)
    || Get(request, "wallet_address", PyNone) == Get(r.request, "wallet_address", PyNone)
  }

  function AmountOf(request: Dict): real {
    Float(Get(request, "amount", PyNum(0.0)))
  }

  /** `int(request.get("timestamp", time.time()))` */
  function RequestTime(request: Dict, now: int): int {
    Trunc(Float(Get(request, "timestamp", PyNum(now as real))))
  }

  /** `context.get(key)` as a truth value, of a context that may be missing. */
  predicate ContextSays(request: Dict, key: string) {
    var context := Get(request, "context", PyNone);
    context.PyDict? && Truth(Get(context.entries, key, PyNone))
  }

  predicate DemoMode(request: Dict) {
    var context := Get(request, "context", PyNone);
    context.PyDict? && Get(context.entries, "demo_risk_mode", PyNone) == PyBool(true)
  }

  // ---------- The detectors ----------

  predicate NewDestination(records: seq<AuditRecord>, request: Dict) {
    && Truth(Target(request))
    && forall i :: 0 <= i < |records| ==>
      !(Target(records[i].request) == Target(request) && SamePayer(records[i], request))
  }

  /** How many records are of the payer, and their amounts summed up. */
  datatype Amounts = Amounts(count: nat, sum: real)

  function History(records: seq<AuditRecord>, request: Dict): Amounts {
    if records == [] then Amounts(0, 0.0)
    else
      var h := History(records[..|records| - 1], request);
      var r := records[|records| - 1];
      if SamePayer(r, request) then Amounts(h.count + 1, h.sum + AmountOf(r.request)) else h
  }

  predicate AmountSpike(records: seq<AuditRecord>, request: Dict) {
    var h := History(records, request);
    h.count >= 3 && h.sum / h.count as real > 0.0 && AmountOf(request) >= 3.0 * (h.sum / h.count as real)
  }

  /** How many records of the payer are at most ten minutes old. */
  function Recent(records: seq<AuditRecord>, request: Dict, time: int): nat {
    if records == [] then 0
    else
      var r := records[|records| - 1];
      Recent(records[..|records| - 1], request, time)
      + if time - r.timestamp <= 600 && SamePayer(r, request) then 1 else 0
  }

  predicate FrequencySpike(records: seq<AuditRecord>, request: Dict, now: int) {
    Recent(records, request, RequestTime(request, now)) >= 5
  }

  function FlagIf(flag: bool, text: string): seq<string> {
    if flag then [text] else []
  }

  function AnomalyFlags(records: seq<AuditRecord>, request: Dict, now: int): seq<string> {
    FlagIf(NewDestination(records, request), "new_destination")
    + FlagIf(AmountSpike(records, request), "amount_spike")
    + FlagIf(FrequencySpike(records, request, now), "frequency_spike")
    + FlagIf(ContextSays(request, "split_transaction_risk"), "split_transaction_risk")
    + FlagIf(ContextSays(request, "after_hours_execution"), "after_hours_execution")
  }

  function Points(flag: bool, points: int): int {
    if flag then points else 0
  }

  function AnomalyScore(records: seq<AuditRecord>, request: Dict, now: int): int {
    Points(NewDestination(records, request), 30)
    + Points(AmountSpike(records, request), 30)
    + Points(FrequencySpike(records, request, now), 20)
    + Points(ContextSays(request, "split_transaction_risk"), 30)
    + Points(ContextSays(request, "after_hours_execution"), 10)
  }

  /** The texts of a list of texts. */
  function Texts(v: PyValue): seq<string> {
    if v.PyList? then seq(|v.items|, i requires 0 <= i < |v.items| => Text(v.items[i])) else []
  }

  /** The score and the flags that a request in demo mode brings with it. */
  function Simulated(request: Dict, score: PyValue, flags: PyValue, demo: bool): RiskAnswer
    requires DemoMode(request)
  {
    var context := Get(request, "context", PyNone).entries;
    RiskAnswer(Trunc(Float(Get(context, "simulated_risk_score", score))),
               Texts(Get(context, "simulated_flags", flags)), demo)
  }

  /** The answer of `calculate_anomaly_score`, which is the risk as `process_action` sees it. */
  function Calculated(records: seq<AuditRecord>, request: Dict, now: int): RiskAnswer {
    if DemoMode(request) then Simulated(request, PyNum(40.0), PyList([PyStr("new_destination")]), false)
    else RiskAnswer(AnomalyScore(records, request, now), AnomalyFlags(records, request, now), false)
  }

  /** The hours in which the legacy path adds to the risk of a request that carries its time. */
  predicate OutOfHours(request: Dict) {
    "timestamp" in request
    && var hour := RequestTime(request, 0) % SECONDS_PER_DAY / 3600;
    hour < 6 || hour >= 22
  }

  /** The risk as the legacy path sees it. */
  function LegacyRisk(records: seq<AuditRecord>, request: Dict, now: int): RiskAnswer {
    var risk := Calculated(records, request, now);
    if DemoMode(request) then Simulated(request, PyNum(risk.score as real), Flags(risk.flags), true)
    else if OutOfHours(request) then
      risk.(score := risk.score + 10,
            flags := if "after_hours_execution" in risk.flags then risk.flags
              else risk.flags + ["after_hours_execution"])
    else risk
  }

  // ---------- The loops ----------

  method DetectNewDestinationRisk(records: seq<AuditRecord>, request: Dict) returns (risk: bool)
    ensures risk <==> NewDestination(records, request)
  {
    var destination := Target(request);
    if !Truth(destination) {
      return false;
    }
    for i := 0 to |records|
      invariant forall j :: 0 <= j < i ==>
        !(Target(records[j].request) == destination && SamePayer(records[j], request))
    {
      if Target(records[i].request) != destination {
        continue;
      }
      if SamePayer(records[i], request) {
        return false;
      }
    }
    return true;
  }

  method DetectAmountSpike(records: seq<AuditRecord>, request: Dict) returns (spike: bool)
    ensures spike <==> AmountSpike(records, request)
  {
    hide SamePayer, AmountOf;
    var count, sum := 0, 0.0;
    for i := 0 to |records|
      invariant Amounts(count, sum) == History(records[..i], request)
    {
      assert records[..i + 1][..i] == records[..i];
      if !SamePayer(records[i], request) {
        continue;
      }
      count, sum := count + 1, sum + AmountOf(records[i].request);
    }
    assert records[..|records|] == records;
    if count < 3 {
      return false;
    }
    var average := sum / count as real;
    spike := average > 0.0 && AmountOf(request) >= 3.0 * average;
  }

  method DetectFrequencySpike(records: seq<AuditRecord>, request: Dict, now: int) returns (spike: bool)
    ensures spike <==> FrequencySpike(records, request, now)
  {
    hide SamePayer;
    var time := RequestTime(request, now);
    var count := 0;
    for i := 0 to |records|
      invariant count == Recent(records[..i], request, time)
    {
      assert records[..i + 1][..i] == records[..i];
      if time - records[i].timestamp > 600 {
        continue;
      }
      if SamePayer(records[i], request) {
        count := count + 1;
      }
    }
    assert records[..|records|] == records;
    return count >= 5;
  }

  method CalculateAnomalyScore(records: seq<AuditRecord>, request: Dict, now: int)
    returns (score: int, flags: seq<string>)
    ensures RiskAnswer(score, flags, false) == Calculated(records, request, now)
  {
    hide NewDestination, AmountSpike, FrequencySpike, ContextSays;
    if DemoMode(request) {
      var simulated := Simulated(request, PyNum(40.0), PyList([PyStr("new_destination")]), false);
      return simulated.score, simulated.flags;
    }
    score, flags := 0, [];
    var new_ := DetectNewDestinationRisk(records, request);
    if new_ {
      score, flags := score + 30, flags + ["new_destination"];
    }
    assert flags == FlagIf(NewDestination(records, request), "new_destination");
    var spike := DetectAmountSpike(records, request);
    if spike {
      score, flags := score + 30, flags + ["amount_spike"];
    }
    assert flags == FlagIf(NewDestination(records, request), "new_destination")
      + FlagIf(AmountSpike(records, request), "amount_spike");
    var frequent := DetectFrequencySpike(records, request, now);
    if frequent {
      score, flags := score + 20, flags + ["frequency_spike"];
    }
    assert flags == FlagIf(NewDestination(records, request), "new_destination")
      + FlagIf(AmountSpike(records, request), "amount_spike")
      + FlagIf(FrequencySpike(records, request, now), "frequency_spike");
    if ContextSays(request, "split_transaction_risk") {
      score, flags := score + 30, flags + ["split_transaction_risk"];
    }
    assert flags == FlagIf(NewDestination(records, request), "new_destination")
      + FlagIf(AmountSpike(records, request), "amount_spike")
      + FlagIf(FrequencySpike(records, request, now), "frequency_spike")
      + FlagIf(ContextSays(request, "split_transaction_risk"), "split_transaction_risk");
    if ContextSays(request, "after_hours_execution") {
      score, flags := score + 10, flags + ["after_hours_execution"];
    }
  }

  // ---------- What the detectors answer ----------

  /** Where a request goes: to its destination, or to its merchant if that says nothing. */
  ghost predicate GoesTo(request: Dict, v: PyValue) {
    if "destination" in request && Truth(request["destination"]) then v == request["destination"]
    else if "merchant" in request then v == request["merchant"]
    else v == PyNone
  }

  /** The places of the records of the same agent, which may stand in the record alone, or of the same wallet. */
  ghost function OfPayer(records: seq<AuditRecord>, request: Dict): set<nat> {
    set i: nat | i < |records| &&
      (|| Get(request, "agent_id", PyNone)
          == (if "agent_id" in records[i].request && Truth(records[i].request["agent_id"])
              then records[i].request["agent_id"] else PyStr(records[i].agentDid))
       || Get(request, "wallet_address", PyNone) == Get(records[i].request, "wallet_address", PyNone))
  }

  /** Their amounts, summed up. */
  ghost function PaidBy(records: seq<AuditRecord>, request: Dict, n: nat): real
    requires n <= |records|
  {
    if n == 0 then 0.0
    else
      PaidBy(records, request, n - 1)
      + if n - 1 in OfPayer(records, request)
        then Float(Get(records[n - 1].request, "amount", PyNum(0.0))) else 0.0
  }

  lemma PayerIff(records: seq<AuditRecord>, request: Dict, i: nat)
    requires i < |records|
    ensures i in OfPayer(records, request) <==> SamePayer(records[i], request)
  {
  }

  /** A new destination: the request says where it goes, and no record of the payer went there. */
  lemma NewDestinationIff(records: seq<AuditRecord>, request: Dict)
    ensures NewDestination(records, request) <==>
      exists v :: GoesTo(request, v) && Truth(v)
        && forall i :: i in OfPayer(records, request) ==> !GoesTo(records[i].request, v)
  {
    assert forall r: Dict, v :: GoesTo(r, v) <==> v == Target(r);
    hide SamePayer, Target, GoesTo;
    forall i: nat | i < |records| ensures i in OfPayer(records, request) <==> SamePayer(records[i], request) {
      PayerIff(records, request, i);
    }
    hide OfPayer;
  }

  /** The places before `n`. */
  ghost function Below(places: set<nat>, n: nat): set<nat> {
    set i | i in places && i < n
  }

  lemma BelowStep(places: set<nat>, n: nat)
    requires n > 0
    ensures |Below(places, n)| == |Below(places, n - 1)| + if n - 1 in places then 1 else 0
    ensures Below(places, 0) == {}
  {
    if n - 1 in places {
      assert Below(places, n) == Below(places, n - 1) + {n - 1};
    } else {
      assert Below(places, n) == Below(places, n - 1);
    }
  }

  lemma BelowEnds(places: set<nat>, n: nat)
    requires forall i :: i in places ==> i < n
    ensures Below(places, 0) == {} && Below(places, n) == places
  {
  }

  lemma {:induction false} HistoryCounts(records: seq<AuditRecord>, request: Dict, n: nat)
    requires n <= |records|
    ensures History(records[..n], request).count == |Below(OfPayer(records, request), n)|
    ensures History(records[..n], request).sum == PaidBy(records, request, n)
  {
    BelowEnds(OfPayer(records, request), |records|);
    hide OfPayer, SamePayer, Below;
    if n > 0 {
      HistoryCounts(records, request, n - 1);
      PayerIff(records, request, n - 1);
      BelowStep(OfPayer(records, request), n);
      assert records[..n][..n - 1] == records[..n - 1];
    }
  }

  /** There are three amounts at least, and this one is three times their average at least. */
  ghost predicate Triples(n: nat, paid: real, amount: real) {
    n >= 3 && paid > 0.0 && amount * n as real >= 3.0 * paid
  }

  lemma SpikeOf(records: seq<AuditRecord>, request: Dict)
    ensures var h := History(records, request);
      AmountSpike(records, request) <==> Triples(h.count, h.sum, AmountOf(request))
  {
    hide History, AmountOf;
    var h := History(records, request);
    if h.count >= 3 { AverageIff(h.count, h.sum, AmountOf(request)); }
  }

  /** An amount spike is three times the average of the payer's records. */
  lemma AmountSpikeIff(records: seq<AuditRecord>, request: Dict)
    ensures var n, paid := |OfPayer(records, request)|, PaidBy(records, request, |records|);
      AmountSpike(records, request) <==> Triples(n, paid, Float(Get(request, "amount", PyNum(0.0))))
  {
    BelowEnds(OfPayer(records, request), |records|);
    hide OfPayer, PaidBy, History, Below, AmountSpike, Triples;
    HistoryCounts(records, request, |records|);
    SpikeOf(records, request);
    assert records[..|records|] == records;
  }

  lemma AverageIff(n: nat, paid: real, a: real)
    requires n > 0
    ensures paid / n as real > 0.0 <==> paid > 0.0
    ensures a >= 3.0 * (paid / n as real) <==> a * n as real >= 3.0 * paid
  {
    var q := paid / n as real;
    assert q * n as real == paid;
    MoreOf(a, 3.0 * q, n);
  }

  lemma MoreOf(a: real, b: real, n: nat)
    requires n > 0
    ensures a >= b <==> a * n as real >= b * n as real
  {
  }

  /** The places of the records of the payer that are not older than ten minutes. */
  ghost function RecentOf(records: seq<AuditRecord>, request: Dict, time: int): set<nat> {
    set i | i in OfPayer(records, request) && i < |records| && records[i].timestamp >= time - 600
  }

  lemma {:induction false} RecentCounts(records: seq<AuditRecord>, request: Dict, time: int, n: nat)
    requires n <= |records|
    ensures Recent(records[..n], request, time) == |Below(RecentOf(records, request, time), n)|
  {
    var places := RecentOf(records, request, time);
    BelowEnds(places, |records|);
    hide OfPayer, SamePayer, Below;
    if n > 0 {
      RecentCounts(records, request, time, n - 1);
      PayerIff(records, request, n - 1);
      BelowStep(places, n);
      assert records[..n][..n - 1] == records[..n - 1];
    }
  }

  /** A frequency spike: five of them at least. */
  lemma FrequencySpikeIff(records: seq<AuditRecord>, request: Dict, now: int)
    ensures var time := if "timestamp" in request then Trunc(Float(request["timestamp"])) else now;
      FrequencySpike(records, request, now) <==> |RecentOf(records, request, time)| >= 5
  {
    var time := RequestTime(request, now);
    BelowEnds(RecentOf(records, request, time), |records|);
    RecentCounts(records, request, time, |records|);
    assert records[..|records|] == records;
    TruncOfInt(now);
    hide RecentOf, Recent, Below, OfPayer;
  }

  lemma TruncOfInt(n: int)
    ensures Trunc(n as real) == n
  {
  }

  ghost predicate FlagOf(records: seq<AuditRecord>, request: Dict, now: int, flag: string) {
    || (flag == "new_destination" && NewDestination(records, request))
    || (flag == "amount_spike" && AmountSpike(records, request))
    || (flag == "frequency_spike" && FrequencySpike(records, request, now))
    || ((flag == "split_transaction_risk" || flag == "after_hours_execution")
        && "context" in request && request["context"].PyDict?
        && flag in request["context"].entries && Truth(request["context"].entries[flag]))
  }

  lemma FlagsAre(records: seq<AuditRecord>, request: Dict, now: int, flag: string)
    ensures flag in AnomalyFlags(records, request, now) <==> FlagOf(records, request, now, flag)
  {
    hide NewDestination, AmountSpike, FrequencySpike;
  }

  /** The flags outside the demo mode, and what they weigh. */
  lemma AnomalyIs(records: seq<AuditRecord>, request: Dict, now: int)
    requires !DemoMode(request)
    ensures var risk := Calculated(records, request, now);
      && (forall flag :: flag in risk.flags <==> FlagOf(records, request, now, flag))
      && risk.score == (if "new_destination" in risk.flags then 30 else 0)
           + (if "amount_spike" in risk.flags then 30 else 0)
           + (if "frequency_spike" in risk.flags then 20 else 0)
           + (if "split_transaction_risk" in risk.flags then 30 else 0)
           + (if "after_hours_execution" in risk.flags then 10 else 0)
  {
    hide NewDestination, AmountSpike, FrequencySpike, AnomalyFlags, ContextSays;
    var flags := AnomalyFlags(records, request, now);
    forall flag ensures flag in flags <==> FlagOf(records, request, now, flag) {
      FlagsAre(records, request, now, flag);
    }
    ScoreIs(records, request, now);
  }

  lemma ScoreIs(records: seq<AuditRecord>, request: Dict, now: int)
    ensures AnomalyScore(records, request, now)
      == (if FlagOf(records, request, now, "new_destination") then 30 else 0)
         + (if FlagOf(records, request, now, "amount_spike") then 30 else 0)
         + (if FlagOf(records, request, now, "frequency_spike") then 20 else 0)
         + (if FlagOf(records, request, now, "split_transaction_risk") then 30 else 0)
         + (if FlagOf(records, request, now, "after_hours_execution") then 10 else 0)
  {
    hide NewDestination, AmountSpike, FrequencySpike;
  }

  /** Outside the demo mode the legacy path adds ten from ten in the evening to six in the morning, if the request says
      when it is; in the demo mode the request says its risk itself. */
  lemma LegacyRiskIs(records: seq<AuditRecord>, request: Dict, now: int)
    ensures DemoMode(request) <==>
      "context" in request && request["context"].PyDict? && "demo_risk_mode" in request["context"].entries
      && request["context"].entries["demo_risk_mode"] == PyBool(true)
    ensures var risk, calculated := LegacyRisk(records, request, now), Calculated(records, request, now);
      && risk.demo == DemoMode(request)
      && (!DemoMode(request) ==>
            if "timestamp" !in request then risk == calculated
            else
              var second := Trunc(Float(request["timestamp"])) % 86400;
              risk.score == calculated.score + if 21600 <= second < 79200 then 0 else 10)
      && (DemoMode(request) ==>
            var context := request["context"].entries;
            risk.score
            == if "simulated_risk_score" in context then Trunc(Float(context["simulated_risk_score"])) else 40)
  {
    hide AnomalyScore, AnomalyFlags;
    TruncOfInt(40);
  }

  // ---------- Requests that repeat ----------

  /** Every record so far is of this request: same target, same payer, same amount. */
  ghost predicate AllLike(records: seq<AuditRecord>, request: Dict) {
    forall i :: 0 <= i < |records| ==>
      && Target(records[i].request) == Target(request)
      && SamePayer(records[i], request)
      && AmountOf(records[i].request) == AmountOf(request)
  }

  lemma {:induction false} HistoryOfLike(records: seq<AuditRecord>, request: Dict)
    requires AllLike(records, request)
    ensures History(records, request) == Amounts(|records|, Times(|records|, AmountOf(request)))
  {
    hide SamePayer, Target, AmountOf, Times;
    OneMoreTime(|records|, AmountOf(request));
    if records != [] {
      var front := records[..|records| - 1];
      assert forall i :: 0 <= i < |front| ==> front[i] == records[i];
      HistoryOfLike(front, request);
    }
  }

  lemma AverageOf(n: nat, a: real)
    requires n > 0
    ensures Times(n, a) / n as real == a
  {
  }

  lemma LikeIsNoSpike(records: seq<AuditRecord>, request: Dict)
    requires AllLike(records, request) && AmountOf(request) > 0.0
    ensures !AmountSpike(records, request)
  {
    hide SamePayer, Target, AmountOf, History, Times;
    HistoryOfLike(records, request);
    if records != [] { AverageOf(|records|, AmountOf(request)); }
  }

  lemma NothingIsFrequent(request: Dict, now: int)
    ensures !FrequencySpike([], request, now)
  {
  }

  lemma LikeIsKnown(records: seq<AuditRecord>, request: Dict)
    requires AllLike(records, request) && records != []
    ensures !NewDestination(records, request)
  {
    hide SamePayer, Target, AmountOf;
    assert Target(records[0].request) == Target(request) && SamePayer(records[0], request);
  }

  /** A positive amount that repeats is no spike, and its destination is new only once: its score stays at 30 or below
      as long as the context adds nothing. */
  lemma RepeatsScoreLow(records: seq<AuditRecord>, request: Dict, now: int)
    requires AllLike(records, request) && AmountOf(request) > 0.0
    requires !ContextSays(request, "split_transaction_risk") && !ContextSays(request, "after_hours_execution")
    ensures AnomalyScore(records, request, now) <= 30
  {
    hide AllLike, NewDestination, AmountSpike, FrequencySpike, ContextSays;
    LikeIsNoSpike(records, request);
    if records == [] {
      NothingIsFrequent(request, now);
    } else {
      LikeIsKnown(records, request);
    }
  }
}
