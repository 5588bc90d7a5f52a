/**
  The decision rules of the vitals overview: the alert list shown for the
  latest reading (`AlertsSection`) and the trends summary over the
  historical readings (`TrendsSummaryCard`).
 */
module VitalsOverview {

  import opened Wrappers
  import opened JsValues
  import opened Tally

  // ---------------------------------------------------------------- alerts

  /** The alerts the section can show, in the order its checks run. */
  datatype Alert =
    | NoVitals
    | TemperatureMissing
    | HeartRateMissing
    | SpO2Missing
    | PostureMissing
    | HighTemperature
    | LowTemperature
    | LowSpO2
    | AbnormalPosture

  function Message(a: Alert): string {
    match a
    case NoVitals => "No vitals data available."
    case TemperatureMissing => "Temperature data missing."
    case HeartRateMissing => "Heart rate data missing."
    case SpO2Missing => "SpO2 data missing."
    case PostureMissing => "Sleep posture data missing."
    case HighTemperature => "High temperature detected!"
    case LowTemperature => "Low temperature detected!"
    case LowSpO2 => "Low SpO2 detected!"
    case AbnormalPosture => "Abnormal sleep posture detected!"
  }

  /** Distinct alerts have distinct messages, so a message names its alert. */
  lemma MessageInjective(a: Alert, b: Alert)
    requires Message(a) == Message(b)
    ensures a == b
  {
  }

  /** The number of checks the section runs. */
  const Checks: nat := 9

  /** The position of an alert's check in the section. */
  function Rank(a: Alert): (r: nat)
    ensures r < Checks
  {
    match a
    case NoVitals => 0
    case TemperatureMissing => 1
    case HeartRateMissing => 2
    case SpO2Missing => 3
    case PostureMissing => 4
    case HighTemperature => 5
    case LowTemperature => 6
    case LowSpO2 => 7
    case AbnormalPosture => 8
  }

  /** The alert the i-th check raises. */
  function CheckAt(i: nat): (a: Alert)
    requires i < Checks
    ensures Rank(a) == i
  {
    if i == 0 then NoVitals
    else if i == 1 then TemperatureMissing
    else if i == 2 then HeartRateMissing
    else if i == 3 then SpO2Missing
    else if i == 4 then PostureMissing
    else if i == 5 then HighTemperature
    else if i == 6 then LowTemperature
    else if i == 7 then LowSpO2
    else AbnormalPosture
  }

  predicate IsMissingAlert(a: Alert) {
    a in {TemperatureMissing, HeartRateMissing, SpO2Missing, PostureMissing}
  }

  predicate IsThresholdAlert(a: Alert) {
    a in {HighTemperature, LowTemperature, LowSpO2, AbnormalPosture}
  }

  /** The postures the section treats as normal. */
  const NormalPostures: seq<string> := ["Supine", "Left", "Right"]

  /** `['Supine', 'Left', 'Right'].includes(p)`. */
  predicate IsNormalPosture(p: string) {
    p in NormalPostures
  }

  /** When the section raises alert a for the given vitals (`!vitals` is true only for a missing row). */
  predicate Fires(vitals: Option<Reading>, a: Alert) {
    match vitals
    case None => a == NoVitals
    case Some(v) =>
      match a
      case NoVitals => false
      case TemperatureMissing => IsNullish(v.temperature)
      case HeartRateMissing => IsNullish(v.heartRate)
      case SpO2Missing => IsNullish(v.spo2)
      case PostureMissing => IsNullish(v.position)
      case HighTemperature => Gt(v.temperature, 37.5)
      case LowTemperature => Lt(v.temperature, 35.0)
      case LowSpO2 => !IsNullish(v.spo2) && Lt(v.spo2, 95.0)
      case AbnormalPosture => TruthyStr(v.position) && !IsNormalPosture(v.position.v)
  }

  /**
    The alerts among the first k checks that fire, in check order: check
    k - 1 appends its alert to those of the earlier checks when it fires.
   */
  function RaisedUpTo(vitals: Option<Reading>, k: nat): seq<Alert>
    requires k <= Checks
  {
    if k == 0 then []
    else if Fires(vitals, CheckAt(k - 1)) then RaisedUpTo(vitals, k - 1) + [CheckAt(k - 1)]
    else RaisedUpTo(vitals, k - 1)
  }

  /** The alerts that fire, in the order the checks run. */
  function Raised(vitals: Option<Reading>): seq<Alert> {
    RaisedUpTo(vitals, Checks)
  }

  /** Every alert listed was checked before check k. */
  predicate RanksBelow(alerts: seq<Alert>, k: nat) {
    forall a :: a in alerts ==> Rank(a) < k
  }

  /** Ranks strictly increase along the list. */
  predicate InCheckOrder(alerts: seq<Alert>) {
    forall i, j :: 0 <= i < j < |alerts| ==> Rank(alerts[i]) < Rank(alerts[j])
  }

  /** Checks k that do not fire leave the list as it is. */
  lemma {:induction false} QuietChecks(vitals: Option<Reading>, j: nat, k: nat)
    requires j <= k <= Checks
    requires forall a :: j <= Rank(a) < k ==> !Fires(vitals, a)
    ensures RaisedUpTo(vitals, k) == RaisedUpTo(vitals, j)
  {
    if j < k {
      QuietChecks(vitals, j, k - 1);
    }
  }

  /** An alert is among the first k checks' alerts exactly when it fires and is checked before k. */
  lemma {:induction false} RaisedUpToMembership(vitals: Option<Reading>, k: nat, a: Alert)
    requires k <= Checks
    ensures a in RaisedUpTo(vitals, k) <==> Fires(vitals, a) && Rank(a) < k
  {
    if k > 0 {
      RaisedUpToMembership(vitals, k - 1, a);
    }
  }

  lemma {:induction false} RaisedUpToOrdered(vitals: Option<Reading>, k: nat)
    requires k <= Checks
    ensures InCheckOrder(RaisedUpTo(vitals, k))
    ensures RanksBelow(RaisedUpTo(vitals, k), k)
  {
    if k > 0 {
      RaisedUpToOrdered(vitals, k - 1);
      var init := RaisedUpTo(vitals, k - 1);
      var last := if Fires(vitals, CheckAt(k - 1)) then [CheckAt(k - 1)] else [];
      assert RaisedUpTo(vitals, k) == init + last;
      assert forall a :: a in last ==> Rank(a) == k - 1;
      forall i, j | 0 <= i < j < |init + last|
        ensures Rank((init + last)[i]) < Rank((init + last)[j])
      {
        if j >= |init| {
          assert (init + last)[j] in last;
          assert (init + last)[i] in init;
        }
      }
    }
  }

  /**
    `AlertsSection`: the `alerts` array built by successive pushes (each
    alert is pushed as its `Message`). It holds every alert that fires, in
    the order the checks run.
   */
  method AlertsSection(vitals: Option<Reading>) returns (alerts: seq<Alert>)
    ensures alerts == Raised(vitals)
  {
    alerts := [];
    if vitals.None? {
      alerts := alerts + [NoVitals];
      NoVitalsAlone();
    } else {
      var v := vitals.value;
      assert alerts == RaisedUpTo(vitals, 1);
      if IsNullish(v.temperature) { alerts := alerts + [TemperatureMissing]; }
      assert alerts == RaisedUpTo(vitals, 2);
      if IsNullish(v.heartRate) { alerts := alerts + [HeartRateMissing]; }
      assert alerts == RaisedUpTo(vitals, 3);
      if IsNullish(v.spo2) { alerts := alerts + [SpO2Missing]; }
      assert alerts == RaisedUpTo(vitals, 4);
      if IsNullish(v.position) { alerts := alerts + [PostureMissing]; }
      assert alerts == RaisedUpTo(vitals, 5);
      if Gt(v.temperature, 37.5) { alerts := alerts + [HighTemperature]; }
      assert alerts == RaisedUpTo(vitals, 6);
      if Lt(v.temperature, 35.0) { alerts := alerts + [LowTemperature]; }
      assert alerts == RaisedUpTo(vitals, 7);
      if !IsNullish(v.spo2) && Lt(v.spo2, 95.0) { alerts := alerts + [LowSpO2]; }
      assert alerts == RaisedUpTo(vitals, 8);
      if TruthyStr(v.position) && !IsNormalPosture(v.position.v) { alerts := alerts + [AbnormalPosture]; }
      assert alerts == RaisedUpTo(vitals, 9);
    }
  }

  /** An alert is shown exactly when it fires. */
  lemma RaisedMembership(vitals: Option<Reading>, a: Alert)
    ensures a in Raised(vitals) <==> Fires(vitals, a)
  {
    RaisedUpToMembership(vitals, Checks, a);
  }

  /**
    The alerts come in the order the checks run (temperature, heart rate,
    SpO2 and posture missing, then the thresholds), none is raised twice,
    and every missing-data alert precedes every threshold alert.
   */
  lemma MissingBeforeThreshold(vitals: Option<Reading>)
    ensures InCheckOrder(Raised(vitals))
    ensures var r := Raised(vitals);
      forall i, j :: 0 <= i < j < |r| ==> r[i] != r[j] && !(IsThresholdAlert(r[i]) && IsMissingAlert(r[j]))
  {
    RaisedUpToOrdered(vitals, Checks);
  }

  /** No reading at all gives exactly one alert, "No vitals data available.". */
  lemma NoVitalsAlone()
    ensures Raised(None) == [NoVitals]
    ensures Message(NoVitals) == "No vitals data available."
  {
    QuietChecks(None, 1, Checks);
  }

  /** Each missing field adds its own alert, independently of the others. */
  lemma MissingFieldAlerts(v: Reading)
    ensures TemperatureMissing in Raised(Some(v)) <==> IsNullish(v.temperature)
    ensures HeartRateMissing in Raised(Some(v)) <==> IsNullish(v.heartRate)
    ensures SpO2Missing in Raised(Some(v)) <==> IsNullish(v.spo2)
    ensures PostureMissing in Raised(Some(v)) <==> IsNullish(v.position)
    ensures NoVitals !in Raised(Some(v))
  {
    RaisedMembership(Some(v), TemperatureMissing);
    RaisedMembership(Some(v), HeartRateMissing);
    RaisedMembership(Some(v), SpO2Missing);
    RaisedMembership(Some(v), PostureMissing);
    RaisedMembership(Some(v), NoVitals);
  }

  /** The high-temperature alert fires exactly above 37.5, the low one exactly below 35, never both. */
  lemma TemperatureAlerts(v: Reading)
    ensures HighTemperature in Raised(Some(v)) <==> v.temperature.Val? && v.temperature.v > 37.5
    ensures v.temperature.Val? ==> (LowTemperature in Raised(Some(v)) <==> v.temperature.v < 35.0)
    ensures !(HighTemperature in Raised(Some(v)) && LowTemperature in Raised(Some(v)))
  {
    RaisedMembership(Some(v), HighTemperature);
    RaisedMembership(Some(v), LowTemperature);
  }

  /**
    A `null` temperature compares as 0: it is reported missing AND low. An
    `undefined` one (NaN) is only reported missing.
   */
  lemma NullTemperatureIsLow(v: Reading)
    ensures v.temperature == Null ==>
      TemperatureMissing in Raised(Some(v)) && LowTemperature in Raised(Some(v))
    ensures v.temperature == Undefined ==>
      TemperatureMissing in Raised(Some(v))
      && LowTemperature !in Raised(Some(v)) && HighTemperature !in Raised(Some(v))
  {
    RaisedMembership(Some(v), TemperatureMissing);
    RaisedMembership(Some(v), HighTemperature);
    RaisedMembership(Some(v), LowTemperature);
  }

  /** Low SpO2 fires exactly for a present value below 95, so never together with "SpO2 data missing.". */
  lemma SpO2Alerts(v: Reading)
    ensures LowSpO2 in Raised(Some(v)) <==> v.spo2.Val? && v.spo2.v < 95.0
    ensures !(LowSpO2 in Raised(Some(v)) && SpO2Missing in Raised(Some(v)))
  {
    RaisedMembership(Some(v), LowSpO2);
    RaisedMembership(Some(v), SpO2Missing);
  }

  /** The abnormal-posture alert fires for a non-empty posture outside Supine/Left/Right, never with the missing one. */
  lemma PostureAlerts(v: Reading)
    ensures AbnormalPosture in Raised(Some(v)) <==>
      v.position.Val? && v.position.v != "" && v.position.v !in ["Supine", "Left", "Right"]
    ensures !(AbnormalPosture in Raised(Some(v)) && PostureMissing in Raised(Some(v)))
  {
    RaisedMembership(Some(v), AbnormalPosture);
    RaisedMembership(Some(v), PostureMissing);
  }

  /**
    The posture chart's label "Supine Position" is not one of the postures
    this section accepts, so a reading with that label raises the
    abnormal-posture alert while a reading labelled "Supine" does not.
   */
  lemma SupinePositionLabelIsAbnormal(v: Reading)
    requires v.position.Val?
    ensures v.position.v == "Supine Position" ==> AbnormalPosture in Raised(Some(v))
    ensures v.position.v == "Supine" ==> AbnormalPosture !in Raised(Some(v))
  {
    PostureAlerts(v);
  }

  /** A complete reading within every range raises nothing ("No alerts. All vitals normal."). */
  lemma NormalReadingRaisesNothing(v: Reading)
    requires v.temperature.Val? && 35.0 <= v.temperature.v <= 37.5
    requires v.heartRate.Val? && v.spo2.Val? && v.spo2.v >= 95.0
    requires v.position.Val? && v.position.v in NormalPostures
    ensures Raised(Some(v)) == []
  {
    QuietChecks(Some(v), 0, Checks);
  }

  // ---------------------------------------------------------------- trends summary

  /** One row trips the flag: `d.temperature > 37.5 || d.spo2 < 95`. */
  predicate RowFlagged(d: Reading) {
    Gt(d.temperature, 37.5) || Lt(d.spo2, 95.0)
  }

  /** `historical.some(d => d.temperature > 37.5 || d.spo2 < 95)`. */
  function AnyFlagged(rows: seq<Reading>): (r: bool)
    ensures r <==> exists i :: 0 <= i < |rows| && RowFlagged(rows[i])
  {
    if rows == [] then false
    else
      var rest := AnyFlagged(rows[1..]);
      assert rest <==> exists i :: 1 <= i < |rows| && RowFlagged(rows[i]) by {
        if rest {
          var i :| 0 <= i < |rows[1..]| && RowFlagged(rows[1..][i]);
          assert rows[i + 1] == rows[1..][i];
        }
        if exists i :: 1 <= i < |rows| && RowFlagged(rows[i]) {
          var i :| 1 <= i < |rows| && RowFlagged(rows[i]);
          assert rows[1..][i - 1] == rows[i];
        }
      }
      RowFlagged(rows[0]) || rest
  }

  datatype TrendSummary = TrendSummary(avgTemp: real, mostCommonPosture: string, flagged: bool)

  /**
    `TrendsSummaryCard`: nothing for an empty history; otherwise the average
    of `temperature || 0` over all rows, the most common truthy posture (ties
    to the earliest first appearance) or "--", and whether some row is flagged.
   */
  method TrendsSummaryCard(historical: seq<Reading>) returns (r: Option<TrendSummary>)
    ensures r.None? <==> historical == []
    ensures r.Some? ==> r.value.avgTemp == MeanTemperature(historical)
    ensures r.Some? ==>
      var ps := TruthyPositions(historical);
      (ps == [] ==> r.value.mostCommonPosture == "--")
      && (ps != [] ==> IsModeOf(ps, r.value.mostCommonPosture))
    ensures r.Some? ==> (r.value.flagged <==> exists i :: 0 <= i < |historical| && RowFlagged(historical[i]))
  {
    if historical == [] {
      return None;
    }
    var avgTemp := MeanTemperature(historical);
    var ps := TruthyPositions(historical);
    var keys, counts := CountKeys(ps);
    LeaderIsMode(ps, keys, counts);
    var leader := Leader(keys, counts);
    var mostCommon := if leader.Some? && leader.value != "" then leader.value else "--";
    var flagged := AnyFlagged(historical);
    r := Some(TrendSummary(avgTemp, mostCommon, flagged));
  }

  /** A `null` SpO2 compares as 0 and flags the row; an `undefined` one does not. */
  lemma NullSpO2Flags(d: Reading)
    requires !Gt(d.temperature, 37.5)
    ensures d.spo2 == Null ==> RowFlagged(d)
    ensures d.spo2 == Undefined ==> !RowFlagged(d)
  {
  }
}
