/**
 * The cleaning stage of the plotting script: the three channel masks are OR-ed
 * into one, every flagged row is dropped from the table in place, and a heat
 * index column is then added for the rows that remain.
 */
module PlotGraph {
  import opened Outliers
  import opened HeatIndex
  import opened Stats

  /** One logged reading: epoch seconds, degrees Celsius, % relative humidity, hPa. */
  datatype Record = Record(timestamp: int, temperature: real, humidity: real, pressure: real)

  datatype Option<T> = None | Some(value: T)

  /** What the script hands to the plotting code: the surviving rows and their heat index. */
  datatype CleanedSeries = CleanedSeries(rows: seq<Record>, heatIndex: seq<real>)

  function Temperatures(rows: seq<Record>): (v: seq<real>)
    ensures |v| == |rows| && forall i :: 0 <= i < |rows| ==> v[i] == rows[i].temperature
  {
    seq(|rows|, i requires 0 <= i < |rows| => rows[i].temperature)
  }

  function Humidities(rows: seq<Record>): (v: seq<real>)
    ensures |v| == |rows| && forall i :: 0 <= i < |rows| ==> v[i] == rows[i].humidity
  {
    seq(|rows|, i requires 0 <= i < |rows| => rows[i].humidity)
  }

  function Pressures(rows: seq<Record>): (v: seq<real>)
    ensures |v| == |rows| && forall i :: 0 <= i < |rows| ==> v[i] == rows[i].pressure
  {
    seq(|rows|, i requires 0 <= i < |rows| => rows[i].pressure)
  }

  /** `np.any([a, b], axis=0)`: flagged in either mask. */
  function AnyOf(a: seq<bool>, b: seq<bool>): (r: seq<bool>)
    requires |a| == |b|
    ensures |r| == |a|
  {
    seq(|a|, i requires 0 <= i < |a| => a[i] || b[i])
  }

  /** The combined outlier mask of the script: temperature, then humidity, then pressure. */
  function CombinedMask(rows: seq<Record>, m: real): (mask: seq<bool>)
    requires |rows| >= 2
    ensures |mask| == |rows|
  {
    AnyOf(AnyOf(OutlierMask(Temperatures(rows), m), OutlierMask(Humidities(rows), m)),
          OutlierMask(Pressures(rows), m))
  }

  /**
   * The positions of the unflagged entries, in increasing order: each is an
   * unflagged position of the mask, and every unflagged position is among them.
   */
  function KeptIndices(mask: seq<bool>): (k: seq<nat>)
    ensures |k| == |mask| - CountTrue(mask)
    ensures forall j :: 0 <= j < |k| ==> k[j] < |mask| && !mask[k[j]]
    ensures forall j1, j2 :: 0 <= j1 < j2 < |k| ==> k[j1] < k[j2]
    ensures forall i :: 0 <= i < |mask| && !mask[i] ==> i in k
  {
    if mask == [] then []
    else
      var n := |mask| - 1;
      CountTrueSnoc(mask[..n], mask[n]);
      assert mask[..n] + [mask[n]] == mask;
      KeptIndices(mask[..n]) + (if mask[n] then [] else [n])
  }

  /** The rows (or column values) at the unflagged positions, in their original order. */
  function Survivors<T>(xs: seq<T>, mask: seq<bool>): (r: seq<T>)
    requires |xs| == |mask|
    ensures |r| == |KeptIndices(mask)|
    ensures forall j :: 0 <= j < |r| ==> r[j] == xs[KeptIndices(mask)[j]]
  {
    if xs == [] then []
    else
      var n := |xs| - 1;
      assert mask[..n] + [mask[n]] == mask;
      Survivors(xs[..n], mask[..n]) + (if mask[n] then [] else [xs[n]])
  }

  lemma {:induction false} CountTrueSnoc(mask: seq<bool>, b: bool)
    ensures CountTrue(mask + [b]) == CountTrue(mask) + (if b then 1 else 0)
  {
    if mask != [] {
      assert (mask + [b])[1..] == mask[1..] + [b];
      CountTrueSnoc(mask[1..], b);
    }
  }

  /** A row is flagged by the combined mask iff some channel flags it. */
  lemma CombinedMaskAt(rows: seq<Record>, m: real, i: nat)
    requires |rows| >= 2 && i < |rows|
    ensures CombinedMask(rows, m)[i]
            <==> OutlierMask(Temperatures(rows), m)[i]
                 || OutlierMask(Humidities(rows), m)[i]
                 || OutlierMask(Pressures(rows), m)[i]
  {
  }

  /**
   * After the drop, the survivors are exactly the rows that no channel flags,
   * in their original order and with unchanged fields, and there are as many
   * of them as there are rows minus the flagged rows.
   */
  lemma {:induction false} SurvivorsExact(rows: seq<Record>, m: real)
    requires |rows| >= 2
    ensures var mask := CombinedMask(rows, m);
            var kept := KeptIndices(mask);
            var out := Survivors(rows, mask);
            && |out| == |rows| - CountTrue(mask)
            && (forall j :: 0 <= j < |out| ==> out[j] == rows[kept[j]])
            && (forall j1, j2 :: 0 <= j1 < j2 < |kept| ==> kept[j1] < kept[j2])
            && (forall i :: 0 <= i < |rows| ==>
                  (i in kept <==> !OutlierMask(Temperatures(rows), m)[i]
                                  && !OutlierMask(Humidities(rows), m)[i]
                                  && !OutlierMask(Pressures(rows), m)[i]))
  {
    var mask := CombinedMask(rows, m);
    var kept := KeptIndices(mask);
    forall i | 0 <= i < |rows|
      ensures i in kept <==> !OutlierMask(Temperatures(rows), m)[i]
                             && !OutlierMask(Humidities(rows), m)[i]
                             && !OutlierMask(Pressures(rows), m)[i]
    {
      CombinedMaskAt(rows, m, i);
      if i in kept {
        var j :| 0 <= j < |kept| && kept[j] == i;
      }
    }
  }

  /**
   * The pandas table the script works on, reduced to what the cleaning stage
   * touches: its rows and, once added, its heat index column.
   */
  class Frame {
    var rows: seq<Record>
    var heatIndex: Option<seq<real>>

    ghost predicate Valid()
      reads this
    {
      heatIndex.Some? ==> |heatIndex.value| == |rows|
    }

    constructor (records: seq<Record>)
      ensures Valid() && rows == records && heatIndex == None
    {
      rows := records;
      heatIndex := None;
    }

    /** `df.drop(df.index[mask], inplace=True)`: removes the flagged rows from every column. */
    method Drop(mask: seq<bool>)
      requires Valid() && |mask| == |rows|
      modifies this
      ensures Valid()
      ensures rows == Survivors(old(rows), mask)
      ensures heatIndex == if old(heatIndex).Some? then Some(Survivors(old(heatIndex).value, mask))
                           else None
    {
      if heatIndex.Some? {
        heatIndex := Some(Survivors(heatIndex.value, mask));
      }
      rows := Survivors(rows, mask);
    }

    /**
     * `add_heat_index(df)`: one heat index per row, from that row's temperature
     * and humidity. On a table with no rows the feature list is empty and
     * `np.matmul` rejects it with ValueError, leaving the table as it was.
     */
    method AddHeatIndex() returns (error: Option<Error>)
      requires Valid()
      modifies this
      ensures Valid() && rows == old(rows)
      ensures error.Some? <==> |rows| == 0
      ensures error.Some? ==> error.value == ValueError && heatIndex == old(heatIndex)
      ensures error.None? ==> heatIndex.Some? && forall i :: 0 <= i < |rows| ==>
                heatIndex.value[i] == HeatIndexOf(rows[i].temperature, rows[i].humidity)
    {
      var r := rows;
      if |r| == 0 {
        return Some(ValueError);
      }
      heatIndex := Some(seq(|r|, i requires 0 <= i < |r| => HeatIndexOf(r[i].temperature, r[i].humidity)));
      error := None;
    }
  }

  /**
   * The script body from the outlier rejection to the heat index: fails with
   * IndexError on fewer than two rows and with ValueError when every row is
   * flagged, and otherwise yields the rows that no channel flags, in order,
   * each with its own heat index.
   */
  method Process(records: seq<Record>, m: real) returns (result: Result<CleanedSeries>)
    ensures result.Err? <==> |records| < 2 || CountTrue(CombinedMask(records, m)) == |records|
    ensures result.Err? ==> result.error == if |records| < 2 then IndexError else ValueError
    ensures result.Ok? ==> result.value.rows == Survivors(records, CombinedMask(records, m))
    ensures result.Ok? ==> |result.value.heatIndex| == |result.value.rows|
    ensures result.Ok? ==> forall i :: 0 <= i < |result.value.rows| ==>
              result.value.heatIndex[i]
              == HeatIndexOf(result.value.rows[i].temperature, result.value.rows[i].humidity)
  {
    var df := new Frame(records);
    var byTemperature := RejectOutliers(Temperatures(df.rows), m);
    if byTemperature.Err? {
      return Err(byTemperature.error);
    }
    var outliers := byTemperature.value;
    outliers := AnyOf(outliers, RejectOutliers(Humidities(df.rows), m).value);
    outliers := AnyOf(outliers, RejectOutliers(Pressures(df.rows), m).value);
    df.Drop(outliers);
    var error := df.AddHeatIndex();
    if error.Some? {
      return Err(error.value);
    }
    result := Ok(CleanedSeries(df.rows, df.heatIndex.value));
  }

  lemma {:induction false} CountTrueAllSet(mask: seq<bool>)
    requires forall i :: 0 <= i < |mask| ==> mask[i]
    ensures CountTrue(mask) == |mask|
  {
    if mask != [] {
      CountTrueAllSet(mask[1..]);
    }
  }

  lemma {:induction false} StepUpMask(data: seq<real>, m: real)
    requires data == [0.0, 5.0, 5.0, 5.0, 5.0]
    ensures OutlierMask(data, m) == [true, true, false, false, false]
  {
    var d := [5.0, 5.0, 0.0, 0.0, 0.0];
    CountAboveOfFive(d, 0.0);
    MaskOfFewChanges(data, d, m);
  }

  lemma {:induction false} BumpMask(data: seq<real>, m: real)
    requires data == [0.0, 0.0, 10.0, 0.0, 0.0]
    ensures OutlierMask(data, m) == [false, false, true, true, false]
  {
    var d := [0.0, 0.0, 10.0, 10.0, 0.0];
    CountAboveOfFive(d, 0.0);
    MaskOfFewChanges(data, d, m);
  }

  lemma {:induction false} LastStepMask(data: seq<real>, m: real)
    requires data == [0.0, 0.0, 0.0, 0.0, 10.0]
    ensures OutlierMask(data, m) == [false, false, false, false, true]
  {
    var d := [0.0, 0.0, 0.0, 0.0, 10.0];
    CountAboveOfFive(d, 0.0);
    MaskOfFewChanges(data, d, m);
  }

  lemma {:induction false} CountAboveOfFive(d: seq<real>, x: real)
    requires |d| == 5
    ensures CountAbove(d, x) == (if d[0] > x then 1 else 0) + (if d[1] > x then 1 else 0)
              + (if d[2] > x then 1 else 0) + (if d[3] > x then 1 else 0) + (if d[4] > x then 1 else 0)
  {
    assert d[4..][1..] == [];
    assert CountAbove(d[4..], x) == (if d[4] > x then 1 else 0);
    assert d[3..][1..] == d[4..];
    assert CountAbove(d[3..], x) == (if d[3] > x then 1 else 0) + CountAbove(d[4..], x);
    assert d[2..][1..] == d[3..];
    assert CountAbove(d[2..], x) == (if d[2] > x then 1 else 0) + CountAbove(d[3..], x);
    assert d[1..][1..] == d[2..];
    assert CountAbove(d[1..], x) == (if d[1] > x then 1 else 0) + CountAbove(d[2..], x);
  }

  /**
   * For five values whose differences are d and have at most two positive
   * entries, the mask flags exactly the changes of value (index 0 copying index 1).
   */
  lemma {:induction false} MaskOfFewChanges(data: seq<real>, d: seq<real>, m: real)
    requires |data| == |d| == 5 && d[0] == d[1]
    requires forall i :: 1 <= i < 5 ==> d[i] == Abs(data[i] - data[i - 1])
    requires CountAbove(d, 0.0) < 3
    ensures OutlierMask(data, m) == [data[1] != data[0], data[1] != data[0], data[2] != data[1],
                                     data[3] != data[2], data[4] != data[3]]
  {
    DiffsAre(data, d);
    ChangesFlaggedIfFewJumps(data, m);
    FiveChanges(data, OutlierMask(data, m));
  }

  /** A five-value mask that flags exactly the changes of value, written out. */
  lemma {:induction false} FiveChanges(data: seq<real>, flags: seq<bool>)
    requires |data| == |flags| == 5
    requires flags[0] == (data[1] != data[0])
    requires forall i :: 1 <= i < 5 ==> (flags[i] <==> data[i] != data[i - 1])
    ensures flags == [data[1] != data[0], data[1] != data[0], data[2] != data[1],
                      data[3] != data[2], data[4] != data[3]]
  {
  }

  /**
   * Every row can be flagged: here temperature flags rows 0 and 1, humidity
   * rows 2 and 3 and pressure row 4, for every multiplier, so the drop
   * empties the table and Process ends in ValueError.
   */
  lemma {:induction false} AllRowsFlagged(rows: seq<Record>, m: real)
    requires rows == [Record(0, 0.0, 0.0, 0.0), Record(1, 5.0, 0.0, 0.0), Record(2, 5.0, 10.0, 0.0),
                      Record(3, 5.0, 0.0, 0.0), Record(4, 5.0, 0.0, 10.0)]
    ensures CountTrue(CombinedMask(rows, m)) == |rows|
  {
    ExampleChannels(rows);
    ExampleChannelsFlagAll(rows, m);
  }

  lemma {:induction false} ExampleChannelsFlagAll(rows: seq<Record>, m: real)
    requires |rows| == 5
    requires Temperatures(rows) == [0.0, 5.0, 5.0, 5.0, 5.0]
    requires Humidities(rows) == [0.0, 0.0, 10.0, 0.0, 0.0]
    requires Pressures(rows) == [0.0, 0.0, 0.0, 0.0, 10.0]
    ensures CountTrue(CombinedMask(rows, m)) == |rows|
  {
    StepUpMask(Temperatures(rows), m);
    BumpMask(Humidities(rows), m);
    LastStepMask(Pressures(rows), m);
    AllFlaggedIfChannelsCover(rows, m, [true, true, false, false, false],
                              [false, false, true, true, false], [false, false, false, false, true]);
  }

  lemma {:induction false} ExampleChannels(rows: seq<Record>)
    requires rows == [Record(0, 0.0, 0.0, 0.0), Record(1, 5.0, 0.0, 0.0), Record(2, 5.0, 10.0, 0.0),
                      Record(3, 5.0, 0.0, 0.0), Record(4, 5.0, 0.0, 10.0)]
    ensures Temperatures(rows) == [0.0, 5.0, 5.0, 5.0, 5.0]
    ensures Humidities(rows) == [0.0, 0.0, 10.0, 0.0, 0.0]
    ensures Pressures(rows) == [0.0, 0.0, 0.0, 0.0, 10.0]
  {
  }

  /** When every row is flagged by at least one channel, the combined mask flags every row. */
  lemma {:induction false} AllFlaggedIfChannelsCover(rows: seq<Record>, m: real,
                                                     t: seq<bool>, h: seq<bool>, p: seq<bool>)
    requires |rows| >= 2
    requires OutlierMask(Temperatures(rows), m) == t
    requires OutlierMask(Humidities(rows), m) == h
    requires OutlierMask(Pressures(rows), m) == p
    requires forall i :: 0 <= i < |rows| ==> t[i] || h[i] || p[i]
    ensures CountTrue(CombinedMask(rows, m)) == |rows|
  {
    forall i | 0 <= i < |rows| ensures CombinedMask(rows, m)[i] {
      CombinedMaskAt(rows, m, i);
    }
    CountTrueAllSet(CombinedMask(rows, m));
  }
}
