/**
  The JavaScript value semantics the dashboard relies on, and the vital-sign
  reading rows it receives from the hosted data store.

  A column of a fetched row is either missing from the object (`undefined`),
  present but `null`, or a value. The dashboard tests these with `== null`,
  with truthiness (`x ? .. : ..`, `x || 0`, `x && ..`), with `??`, and with
  relational operators, and JavaScript treats the three cases differently:
  in `x > c` and `x < c`, `null` is converted to 0 and `undefined` to NaN
  (so every comparison with `undefined` is false).
 */
module JsValues {

  datatype Nullable<+T> = Undefined | Null | Val(v: T)

  /** `x == null`: true for both `null` and `undefined`. */
  predicate IsNullish<T>(x: Nullable<T>) {
    !x.Val?
  }

  /** Truthiness of a number column (NaN is not modelled): a value other than 0. */
  predicate TruthyNum(x: Nullable<real>) {
    x.Val? && x.v != 0.0
  }

  /** Truthiness of a string column: a non-empty string. */
  predicate TruthyStr(x: Nullable<string>) {
    x.Val? && x.v != ""
  }

  /** `x > c` for a number column: `null` is 0, `undefined` is NaN. */
  predicate Gt(x: Nullable<real>, c: real) {
    match x
    case Undefined => false
    case Null => 0.0 > c
    case Val(n) => n > c
  }

  /** `x < c` for a number column: `null` is 0, `undefined` is NaN. */
  predicate Lt(x: Nullable<real>, c: real) {
    match x
    case Undefined => false
    case Null => 0.0 < c
    case Val(n) => n < c
  }

  /** `x || 0` for a number column. */
  function OrZero(x: Nullable<real>): (r: real)
    ensures TruthyNum(x) ==> r == x.v
    ensures !TruthyNum(x) ==> r == 0.0
  {
    if x.Val? then x.v else 0.0
  }

  /**
    One row of `live_data` or `historical_data`. The columns a query did not
    select are `Undefined` (the dashboard's history query, for instance,
    selects no heart rate).
   */
  datatype Reading = Reading(
    recordedAt: Nullable<string>,
    temperature: Nullable<real>,
    heartRate: Nullable<real>,
    spo2: Nullable<real>,
    position: Nullable<string>)

  /** `acc + (d.temperature || 0)` folded over the rows, left to right. */
  function TemperatureSum(rows: seq<Reading>): real
  {
    if rows == [] then 0.0 else TemperatureSum(rows[..|rows| - 1]) + OrZero(rows[|rows| - 1].temperature)
  }

  /**
    The average temperature both the trends card and the report preview show:
    the sum of `temperature || 0` divided by the number of rows, so a missing
    or zero temperature counts as 0 but still counts in the denominator.
   */
  function MeanTemperature(rows: seq<Reading>): (r: real)
    requires rows != []
    ensures r * (|rows| as real) == TemperatureSum(rows)
  {
    TemperatureSum(rows) / (|rows| as real)
  }

  /** The positions that pass `if (d.position)`, in row order. */
  function TruthyPositions(rows: seq<Reading>): (ps: seq<string>)
    ensures |ps| <= |rows|
    ensures forall p :: p in ps ==> p != ""
  {
    if rows == [] then []
    else
      var last := rows[|rows| - 1];
      TruthyPositions(rows[..|rows| - 1]) + (if TruthyStr(last.position) then [last.position.v] else [])
  }

  lemma {:induction false} TruthyPositionsMembership(rows: seq<Reading>, p: string)
    ensures p in TruthyPositions(rows) <==> exists i :: 0 <= i < |rows| && rows[i].position == Val(p) && p != ""
  {
    if rows != [] {
      var init := rows[..|rows| - 1];
      TruthyPositionsMembership(init, p);
      if p in TruthyPositions(init) {
        var i :| 0 <= i < |init| && init[i].position == Val(p) && p != "";
        assert rows[i] == init[i];
      }
      if exists i :: 0 <= i < |rows| && rows[i].position == Val(p) && p != "" {
        var i :| 0 <= i < |rows| && rows[i].position == Val(p) && p != "";
        if i < |init| {
          assert init[i] == rows[i];
        }
      }
    }
  }

  /** With every present temperature equal to c, one row without a temperature already pulls the average below c. */
  lemma {:induction false} MissingTemperatureLowersMean(rows: seq<Reading>, c: real)
    requires c > 0.0
    requires forall i :: 0 <= i < |rows| ==> rows[i].temperature == Val(c) || IsNullish(rows[i].temperature)
    requires exists i :: 0 <= i < |rows| && IsNullish(rows[i].temperature)
    ensures MeanTemperature(rows) < c
  {
    SumBelow(rows, c);
  }

  lemma {:induction false} SumBelow(rows: seq<Reading>, c: real)
    requires c > 0.0
    requires forall i :: 0 <= i < |rows| ==> rows[i].temperature == Val(c) || IsNullish(rows[i].temperature)
    ensures TemperatureSum(rows) <= c * (|rows| as real)
    ensures (exists i :: 0 <= i < |rows| && IsNullish(rows[i].temperature)) ==> TemperatureSum(rows) < c * (|rows| as real)
  {
    if rows != [] {
      var init := rows[..|rows| - 1];
      SumBelow(init, c);
      if exists i :: 0 <= i < |rows| && IsNullish(rows[i].temperature) {
        var i :| 0 <= i < |rows| && IsNullish(rows[i].temperature);
        if i < |init| {
          assert init[i] == rows[i];
        }
      }
    }
  }
}
