/** The data-cleaning script that prepares the listings the price regressor is
    trained on: the positive-price row filter, the `car_age` column derived
    from the latest posting date, and the encoding of the condition column
    as ordinal codes.

    A pandas frame is modelled as a value: a number of rows and a map from
    column name to that column's cells. Every operation returns a new frame
    and leaves its argument as it was, as `df.copy()` does in the script.
    Where pandas would raise (a missing column, a comparison or subtraction
    on text) the operation returns None. */
module Cleaning {
  import opened Wrappers
  import opened Conditions

  /** A parsed posting date, ordered by year and then by position within the year. */
  datatype DateTime = DateTime(year: int, secondOfYear: nat)

  predicate Later(a: DateTime, b: DateTime)
  {
    a.year > b.year || (a.year == b.year && a.secondOfYear > b.secondOfYear)
  }

  /** One cell: a null (NaN/NaT/None), a number, a string or a date. */
  datatype Cell = Null | Num(x: real) | Text(s: string) | Stamp(t: DateTime)

  datatype Frame = Frame(height: nat, columns: map<string, seq<Cell>>)

  /** Every column has one cell per row. */
  predicate WellFormed(df: Frame)
  {
    forall c :: c in df.columns ==> |df.columns[c]| == df.height
  }

  // ---------------------------------------------------------------------
  // Selecting rows by a boolean mask (`df[mask]`)

  function CountTrue(m: seq<bool>): nat
  {
    if m == [] then 0 else CountTrue(m[..|m| - 1]) + (if m[|m| - 1] then 1 else 0)
  }

  /** The cells whose mask entry is true, in their original order. */
  function Select(s: seq<Cell>, m: seq<bool>): (r: seq<Cell>)
    requires |m| == |s|
    ensures |r| == CountTrue(m)
  {
    if s == [] then []
    else Select(s[..|s| - 1], m[..|m| - 1]) + (if m[|m| - 1] then [s[|s| - 1]] else [])
  }

  /** The positions whose mask entry is true, in increasing order. */
  function Kept(m: seq<bool>): (r: seq<nat>)
    ensures |r| == CountTrue(m)
  {
    if m == [] then []
    else Kept(m[..|m| - 1]) + (if m[|m| - 1] then [|m| - 1] else [])
  }

  /** Kept lists every selected position once, in increasing order, and no other. */
  lemma {:induction false} KeptIndices(m: seq<bool>)
    ensures forall k :: 0 <= k < |Kept(m)| ==> Kept(m)[k] < |m| && m[Kept(m)[k]]
    ensures forall k, l :: 0 <= k < l < |Kept(m)| ==> Kept(m)[k] < Kept(m)[l]
    ensures forall i :: 0 <= i < |m| && m[i] ==> i in Kept(m)
    decreases |m|
  {
    if m != [] {
      var p := m[..|m| - 1];
      KeptIndices(p);
      assert forall i :: 0 <= i < |p| ==> p[i] == m[i];
    }
  }

  /** The k-th selected cell is the cell at the k-th selected position. */
  lemma {:induction false} SelectAt(s: seq<Cell>, m: seq<bool>, k: nat)
    requires |m| == |s| && k < CountTrue(m)
    ensures Kept(m)[k] < |s| && Select(s, m)[k] == s[Kept(m)[k]]
    decreases |s|
  {
    KeptIndices(m);
    var n := |s| - 1;
    if k < CountTrue(m[..n]) {
      SelectAt(s[..n], m[..n], k);
    }
  }

  /** `df[mask]`: the same mask applied to every column, so rows stay whole. */
  function SelectRows(df: Frame, m: seq<bool>): (r: Frame)
    requires WellFormed(df) && |m| == df.height
    ensures WellFormed(r) && r.height == CountTrue(m) && r.columns.Keys == df.columns.Keys
  {
    Frame(CountTrue(m), map c | c in df.columns :: Select(df.columns[c], m))
  }

  // ---------------------------------------------------------------------
  // `df = df[df['price'] > 0]`

  /** `cell > 0` in pandas: False for a null, an error for text or a date. */
  function PositivePrice(c: Cell): Option<bool>
  {
    match c
    case Null => Some(false)
    case Num(p) => Some(p > 0.0)
    case _ => None
  }

  function PriceMask(col: seq<Cell>): (r: Option<seq<bool>>)
    ensures r.Some? <==> forall i :: 0 <= i < |col| ==> PositivePrice(col[i]).Some?
    ensures r.Some? ==> (|r.value| == |col| &&
              forall i :: 0 <= i < |col| ==> r.value[i] == PositivePrice(col[i]).value)
  {
    if col == [] then Some([])
    else
      var init := col[..|col| - 1];
      match PriceMask(init)
      case None => None
      case Some(m) =>
        match PositivePrice(col[|col| - 1])
        case None => None
        case Some(b) => Some(m + [b])
  }

  function KeepPositivePrice(df: Frame): Option<Frame>
    requires WellFormed(df)
  {
    if "price" !in df.columns then None
    else
      match PriceMask(df.columns["price"])
      case None => None
      case Some(m) => Some(SelectRows(df, m))
  }

  /** The filter fails exactly when there is no price column or a price
      cell is text or a date. */
  lemma KeepPositivePriceDefined(df: Frame)
    requires WellFormed(df)
    ensures KeepPositivePrice(df).Some? <==>
              "price" in df.columns &&
              forall i :: 0 <= i < df.height ==> df.columns["price"][i].Null? || df.columns["price"][i].Num?
  {
  }

  /** The rows that survive the filter: those whose price is a number above 0. */
  function PositiveRows(df: Frame): seq<nat>
    requires WellFormed(df) && KeepPositivePrice(df).Some?
  {
    Kept(PriceMask(df.columns["price"]).value)
  }

  /** After the filter every price is a positive number; the surviving rows
      are exactly the rows of the input with a positive price, in their
      original order, each row carried whole across all columns. */
  lemma {:induction false} KeepPositivePriceSpec(df: Frame)
    requires WellFormed(df) && KeepPositivePrice(df).Some?
    ensures var out := KeepPositivePrice(df).value;
            WellFormed(out) && out.columns.Keys == df.columns.Keys &&
            (forall k :: 0 <= k < out.height ==>
               out.columns["price"][k].Num? && out.columns["price"][k].x > 0.0)
    ensures var out := KeepPositivePrice(df).value;
            var rows := PositiveRows(df);
            |rows| == out.height &&
            (forall k, l :: 0 <= k < l < |rows| ==> rows[k] < rows[l]) &&
            (forall i :: 0 <= i < df.height ==>
               (i in rows <==> df.columns["price"][i].Num? && df.columns["price"][i].x > 0.0)) &&
            (forall c, k :: c in df.columns && 0 <= k < |rows| ==>
               rows[k] < df.height && out.columns[c][k] == df.columns[c][rows[k]])
  {
    var price := df.columns["price"];
    var m := PriceMask(price).value;
    var out := KeepPositivePrice(df).value;
    KeptIndices(m);
    forall c, k | c in df.columns && 0 <= k < |Kept(m)|
      ensures Kept(m)[k] < df.height && out.columns[c][k] == df.columns[c][Kept(m)[k]]
    {
      SelectAt(df.columns[c], m, k);
    }
    forall i | 0 <= i < df.height
      ensures i in Kept(m) <==> price[i].Num? && price[i].x > 0.0
    {
      if i in Kept(m) {
        var k :| 0 <= k < |Kept(m)| && Kept(m)[k] == i;
      }
    }
    forall k | 0 <= k < out.height
      ensures out.columns["price"][k].Num? && out.columns["price"][k].x > 0.0
    {
      SelectAt(price, m, k);
    }
  }

  // ---------------------------------------------------------------------
  // `convert_condition`

  /** The script's dictionary, keyed by the exact (lower-case) strings of the dataset. */
  const ConditionMapping: map<string, Condition> := map[
    "salvage" := Salvage,
    "fair" := Fair,
    "good" := Good,
    "excellent" := Excellent,
    "new" := New,
    "like new" := New
  ]

  /** `Series.map(dict)` on one cell: a key becomes its code, anything else null. */
  function EncodeCell(c: Cell): Cell
  {
    if c.Text? && c.s in ConditionMapping then Num(Tag(ConditionMapping[c.s])) else Null
  }

  function EncodeColumn(col: seq<Cell>): (r: seq<Cell>)
    ensures |r| == |col| && forall i :: 0 <= i < |col| ==> r[i] == EncodeCell(col[i])
  {
    if col == [] then [] else [EncodeCell(col[0])] + EncodeColumn(col[1..])
  }

  /** The warning's count: cells null after mapping that were not null before. */
  function UnmappedCount(before: seq<Cell>, after: seq<Cell>): nat
    requires |before| == |after|
  {
    if before == [] then 0
    else (if after[0].Null? && !before[0].Null? then 1 else 0) + UnmappedCount(before[1..], after[1..])
  }

  /** A cell the dictionary does not know: present, but not one of its keys. */
  predicate Unknown(c: Cell)
  {
    !c.Null? && !(c.Text? && c.s in ConditionMapping)
  }

  function CountUnknown(col: seq<Cell>): nat
  {
    if col == [] then 0 else (if Unknown(col[0]) then 1 else 0) + CountUnknown(col[1..])
  }

  /** The converted frame, and the count the script prints a warning for when it is not 0. */
  datatype Converted = Converted(frame: Frame, unmapped: nat)

  function ConvertCondition(df: Frame, column: string := "condition"): Option<Converted>
    requires WellFormed(df)
  {
    if column !in df.columns then None
    else
      var before := df.columns[column];
      var after := EncodeColumn(before);
      Some(Converted(Frame(df.height, df.columns[column := after]), UnmappedCount(before, after)))
  }

  /** The dictionary's entries, exactly; its keys are case-sensitive. */
  lemma EncodingTable()
    ensures EncodeCell(Text("salvage")) == Num(0.0)
    ensures EncodeCell(Text("fair")) == Num(1.0)
    ensures EncodeCell(Text("good")) == Num(2.0)
    ensures EncodeCell(Text("excellent")) == Num(3.0)
    ensures EncodeCell(Text("new")) == Num(4.0)
    ensures EncodeCell(Text("like new")) == Num(4.0)
    ensures EncodeCell(Text("Good")) == Null && EncodeCell(Text("New")) == Null
    ensures EncodeCell(Null) == Null
  {
  }

  /** Every code is one of the app picker's tags, so the script and the app
      agree on the scale; the code is not injective, because "new" and
      "like new" share the top code. */
  lemma EncodedRange(c: Cell)
    ensures EncodeCell(c).Null? || (EncodeCell(c).Num? && FromTag(EncodeCell(c).x).Some?)
    ensures EncodeCell(c).Num? ==> 0.0 <= EncodeCell(c).x <= 4.0
    ensures EncodeCell(c).Null? <==> c.Null? || Unknown(c)
  {
  }

  lemma EncodingNotInjective()
    ensures Text("new") != Text("like new") && EncodeCell(Text("new")) == EncodeCell(Text("like new"))
  {
  }

  /** The reported count is the number of present cells that are not
      dictionary keys. */
  lemma {:induction false} UnmappedIsUnknown(col: seq<Cell>)
    ensures UnmappedCount(col, EncodeColumn(col)) == CountUnknown(col)
    decreases |col|
  {
    if col != [] {
      assert EncodeColumn(col)[1..] == EncodeColumn(col[1..]);
      EncodedRange(col[0]);
      UnmappedIsUnknown(col[1..]);
    }
  }

  lemma {:induction false} NoUnknownCountsZero(col: seq<Cell>)
    ensures CountUnknown(col) == 0 <==> forall i :: 0 <= i < |col| ==> !Unknown(col[i])
    decreases |col|
  {
    if col != [] {
      NoUnknownCountsZero(col[1..]);
      assert forall i :: 1 <= i < |col| ==> col[i] == col[1..][i - 1];
    }
  }

  /** The conversion fails exactly for a missing column; otherwise it keeps
      the rows and their order, rewrites only the named column (cell by cell),
      leaves every other column as it was, and reports a nonzero count (the
      warning) exactly when some present cell was not a key. */
  lemma ConvertConditionSpec(df: Frame, column: string)
    requires WellFormed(df)
    ensures ConvertCondition(df, column).Some? <==> column in df.columns
    ensures ConvertCondition(df, column).Some? ==>
              var out := ConvertCondition(df, column).value;
              var before := df.columns[column];
              WellFormed(out.frame) && out.frame.height == df.height &&
              out.frame.columns.Keys == df.columns.Keys &&
              (forall c :: c in df.columns && c != column ==> out.frame.columns[c] == df.columns[c]) &&
              (forall i :: 0 <= i < df.height ==> out.frame.columns[column][i] == EncodeCell(before[i])) &&
              out.unmapped == CountUnknown(before) &&
              (out.unmapped > 0 <==> exists i :: 0 <= i < df.height && Unknown(before[i]))
  {
    if column in df.columns {
      UnmappedIsUnknown(df.columns[column]);
      NoUnknownCountsZero(df.columns[column]);
    }
  }

  // ---------------------------------------------------------------------
  // `car_age = reference_date.year - year`

  /** `Series.max()` on the posting dates: the latest date, skipping nulls
      (and any cell that is not a date). */
  function LatestPosting(col: seq<Cell>): Option<DateTime>
  {
    if col == [] then None
    else
      var rest := LatestPosting(col[..|col| - 1]);
      var last := col[|col| - 1];
      if !last.Stamp? then rest
      else if rest.None? || Later(last.t, rest.value) then Some(last.t)
      else rest
  }

  /** The latest posting date is one of the column's dates and no date in
      the column is later; there is none only when the column holds no date. */
  lemma {:induction false} LatestPostingIsMaximum(col: seq<Cell>)
    ensures LatestPosting(col).None? <==> forall i :: 0 <= i < |col| ==> !col[i].Stamp?
    ensures LatestPosting(col).Some? ==>
              (exists i :: 0 <= i < |col| && col[i] == Stamp(LatestPosting(col).value)) &&
              forall i :: 0 <= i < |col| && col[i].Stamp? ==> !Later(col[i].t, LatestPosting(col).value)
    decreases |col|
  {
    if col != [] {
      var init := col[..|col| - 1];
      LatestPostingIsMaximum(init);
      assert forall i :: 0 <= i < |init| ==> init[i] == col[i];
      if LatestPosting(col).Some? && LatestPosting(col) == LatestPosting(init) {
        var j :| 0 <= j < |init| && init[j] == Stamp(LatestPosting(col).value);
        assert col[j] == Stamp(LatestPosting(col).value);
      }
    }
  }

  /** `reference_date.year`; NaT (no date at all) has no year. */
  function ReferenceYear(postingDates: seq<Cell>): Option<int>
  {
    match LatestPosting(postingDates)
    case None => None
    case Some(d) => Some(d.year)
  }

  /** `refYear - year` on one cell: null when either side is missing, an error for text or a date. */
  function AgeCell(refYear: Option<int>, y: Cell): Option<Cell>
  {
    match y
    case Null => Some(Null)
    case Num(v) => if refYear.Some? then Some(Num(refYear.value as real - v)) else Some(Null)
    case _ => None
  }

  function AgeColumn(refYear: Option<int>, years: seq<Cell>): (r: Option<seq<Cell>>)
    ensures r.Some? <==> forall i :: 0 <= i < |years| ==> AgeCell(refYear, years[i]).Some?
    ensures r.Some? ==> (|r.value| == |years| &&
              forall i :: 0 <= i < |years| ==> r.value[i] == AgeCell(refYear, years[i]).value)
  {
    if years == [] then Some([])
    else
      match AgeCell(refYear, years[0])
      case None => None
      case Some(a) =>
        match AgeColumn(refYear, years[1..])
        case None => assert exists i :: 1 <= i < |years| && AgeCell(refYear, years[i]).None? by {
                       var j :| 0 <= j < |years[1..]| && AgeCell(refYear, years[1..][j]).None?;
                       assert years[1..][j] == years[j + 1];
                     }
                     None
        case Some(rest) => Some([a] + rest)
  }

  /** Adds (or replaces) the `car_age` column. */
  function AddCarAge(df: Frame, refYear: Option<int>): Option<Frame>
    requires WellFormed(df)
  {
    if "year" !in df.columns then None
    else
      match AgeColumn(refYear, df.columns["year"])
      case None => None
      case Some(ages) => Some(Frame(df.height, df.columns["car_age" := ages]))
  }

  /** The step fails exactly when there is no year column or a year cell is
      text or a date. Otherwise every row's age is the reference year minus
      that row's year (null where either is missing), the rows stay as they
      were, and no column other than `car_age` changes. */
  lemma AddCarAgeSpec(df: Frame, refYear: Option<int>)
    requires WellFormed(df)
    ensures AddCarAge(df, refYear).Some? <==>
              "year" in df.columns &&
              forall i :: 0 <= i < df.height ==> df.columns["year"][i].Null? || df.columns["year"][i].Num?
    ensures AddCarAge(df, refYear).Some? ==>
              var out := AddCarAge(df, refYear).value;
              var years := df.columns["year"];
              WellFormed(out) && out.height == df.height &&
              out.columns.Keys == df.columns.Keys + {"car_age"} &&
              (forall c :: c in df.columns && c != "car_age" ==> out.columns[c] == df.columns[c]) &&
              forall i :: 0 <= i < df.height ==>
                out.columns["car_age"][i] ==
                  if years[i].Num? && refYear.Some? then Num(refYear.value as real - years[i].x) else Null
  {
  }

  /** Position j of the posting dates holds a date no other date is later than. */
  predicate LatestAt(dates: seq<Cell>, j: int)
  {
    0 <= j < |dates| && dates[j].Stamp? &&
    forall l :: 0 <= l < |dates| && dates[l].Stamp? ==> !Later(dates[l].t, dates[j].t)
  }

  /** Lines 59 and 60 together: with the reference year read from the
      posting-date column, each row with a numeric year gets as its age the
      year of a latest posting date of that column minus the row's own year;
      when the column holds no date, every age is null. */
  lemma CarAgeFromLatestPosting(df: Frame)
    requires WellFormed(df) && "posting_date" in df.columns
    requires AddCarAge(df, ReferenceYear(df.columns["posting_date"])).Some?
    ensures var dates := df.columns["posting_date"];
            var ages := AddCarAge(df, ReferenceYear(dates)).value.columns["car_age"];
            var years := df.columns["year"];
            (exists j :: 0 <= j < |dates| && dates[j].Stamp?) ==>
              exists j :: LatestAt(dates, j) &&
                forall i :: 0 <= i < df.height && years[i].Num? ==>
                  ages[i] == Num(dates[j].t.year as real - years[i].x)
    ensures var dates := df.columns["posting_date"];
            var ages := AddCarAge(df, ReferenceYear(dates)).value.columns["car_age"];
            (forall j :: 0 <= j < |dates| ==> !dates[j].Stamp?) ==>
              forall i :: 0 <= i < df.height ==> ages[i] == Null
  {
    var dates := df.columns["posting_date"];
    LatestPostingIsMaximum(dates);
    AddCarAgeSpec(df, ReferenceYear(dates));
    if LatestPosting(dates).Some? {
      var j :| 0 <= j < |dates| && dates[j] == Stamp(LatestPosting(dates).value);
      assert LatestAt(dates, j);
    }
  }

  /** The script's order: the price filter runs before the age is derived and
      the condition encoded, and neither later step touches the price column,
      so every row of the processed frame still has a positive price. */
  lemma ProcessedPricesPositive(df: Frame, refYear: Option<int>)
    requires WellFormed(df) && KeepPositivePrice(df).Some?
    requires AddCarAge(KeepPositivePrice(df).value, refYear).Some?
    requires ConvertCondition(AddCarAge(KeepPositivePrice(df).value, refYear).value).Some?
    ensures var out := ConvertCondition(AddCarAge(KeepPositivePrice(df).value, refYear).value).value.frame;
            WellFormed(out) && "price" in out.columns &&
            forall k :: 0 <= k < out.height ==> out.columns["price"][k].Num? && out.columns["price"][k].x > 0.0
  {
    var filtered := KeepPositivePrice(df).value;
    KeepPositivePriceSpec(df);
    AddCarAgeSpec(filtered, refYear);
    var aged := AddCarAge(filtered, refYear).value;
    ConvertConditionSpec(aged, "condition");
  }
}
