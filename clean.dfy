/** `transform_data`: the cleaning of the table `load_data` built. The chain of
    `Transform.py` — `drop_duplicates`, `dropna` on `temp` and `humidite`, `pd.to_numeric`
    with `errors="coerce"` on the five numeric columns, the `scrape_date` stamp — is
    a composition of sequence functions, and `TransformData` is the same chain
    written step by step, with its loop over the numeric columns. The clock reading
    and the string-to-number parser of `pd.to_numeric` are parameters. */
module Clean {
  import opened Wrappers
  import opened Rows
  import opened Timestamps

  /** The string-to-number parser of `pd.to_numeric`: `None` for a string it cannot
      read (NaN included). Every property below holds for any parser. */
  type Parser = string -> Option<real>

  /** The exceptions `transform_data` logs and re-raises: `drop_duplicates` cannot
      hash a dict or list cell (TypeError), and `dropna(subset=...)` on the
      column-less frame of an empty scan does not find its columns (KeyError). */
  datatype TransformError = Unhashable | MissingColumns

  predicate NoDuplicates(t: seq<Row>)
  {
    forall i, j :: 0 <= i < j < |t| ==> t[i] != t[j]
  }

  predicate AllHashable(t: seq<Row>)
  {
    forall i :: 0 <= i < |t| ==> Hashable(t[i])
  }

  // ---------------------------------------------------------------------------
  // drop_duplicates()

  /** `drop_duplicates()` with `keep="first"`: a row is dropped when an equal row
      comes earlier. */
  function Dedup(t: seq<Row>): seq<Row>
    decreases |t|
  {
    if t == [] then []
    else
      var init := t[..|t| - 1];
      if t[|t| - 1] in init then Dedup(init) else Dedup(init) + [t[|t| - 1]]
  }

  /** The position of the first occurrence of `x` in `t`. */
  function FirstIndex(t: seq<Row>, x: Row): (k: nat)
    requires x in t
    ensures k < |t| && t[k] == x && x !in t[..k]
  {
    if t[0] == x then 0
    else
      var k := 1 + FirstIndex(t[1..], x);
      assert t[..k] == [t[0]] + t[1..][..k - 1];
      k
  }

  /** Deduplication keeps every distinct row of the input and nothing else. */
  lemma {:induction false} DedupMembers(t: seq<Row>)
    ensures forall x :: x in Dedup(t) <==> x in t
    decreases |t|
  {
    if t != [] {
      var init := t[..|t| - 1];
      assert t == init + [t[|t| - 1]];
      DedupMembers(init);
    }
  }

  /** No two rows of the result are equal in every field. */
  lemma {:induction false} DedupUnique(t: seq<Row>)
    ensures NoDuplicates(Dedup(t))
    decreases |t|
  {
    if t != [] {
      var init := t[..|t| - 1];
      DedupUnique(init);
      DedupMembers(init);
    }
  }

  /** The result lists the rows in the order of their first occurrences: the kept
      copy of each row is its first one, and relative order is preserved. */
  lemma {:induction false} DedupKeepsFirstOccurrences(t: seq<Row>)
    ensures forall x :: x in Dedup(t) ==> x in t
    ensures forall i, j :: 0 <= i < j < |Dedup(t)| ==> FirstIndex(t, Dedup(t)[i]) < FirstIndex(t, Dedup(t)[j])
    decreases |t|
  {
    DedupMembers(t);
    if t != [] {
      var init, last := t[..|t| - 1], t[|t| - 1];
      assert t == init + [last];
      DedupKeepsFirstOccurrences(init);
      DedupStepOrder(init, last);
    }
  }

  /** The inductive step: appending one row to the input. */
  lemma DedupStepOrder(init: seq<Row>, last: Row)
    requires forall x :: x in Dedup(init) ==> x in init
    requires forall i, j :: 0 <= i < j < |Dedup(init)| ==> FirstIndex(init, Dedup(init)[i]) < FirstIndex(init, Dedup(init)[j])
    ensures forall x :: x in Dedup(init + [last]) ==> x in init + [last]
    ensures forall i, j :: 0 <= i < j < |Dedup(init + [last])| ==>
              FirstIndex(init + [last], Dedup(init + [last])[i]) < FirstIndex(init + [last], Dedup(init + [last])[j])
  {
  }

  /** The table that reaches the coercion loop still holds no dict or list cell. */
  lemma CleanedHashable(rows: seq<Row>)
    requires AllHashable(rows)
    ensures AllHashable(FilterNonNull(Dedup(rows)))
  {
    DedupMembers(rows);
    FilterMembers(Dedup(rows));
    var kept := FilterNonNull(Dedup(rows));
    forall i | 0 <= i < |kept| ensures Hashable(kept[i]) {
      assert kept[i] in rows;
    }
  }

  lemma {:induction false} DedupLength(t: seq<Row>)
    ensures |Dedup(t)| <= |t|
    decreases |t|
  {
    if t != [] {
      DedupLength(t[..|t| - 1]);
    }
  }

  /** A table without duplicates is left as it is. */
  lemma {:induction false} DedupOfUnique(t: seq<Row>)
    requires NoDuplicates(t)
    ensures Dedup(t) == t
    decreases |t|
  {
    if t != [] {
      var init := t[..|t| - 1];
      DedupOfUnique(init);
      assert init + [t[|t| - 1]] == t;
    }
  }

  lemma {:induction false} UniqueCountsOnce(t: seq<Row>, x: Row)
    requires NoDuplicates(t) && x in t
    ensures multiset(t)[x] == 1
    decreases |t|
  {
    if t[0] == x {
      assert t == [t[0]] + t[1..];
    } else {
      assert t == [t[0]] + t[1..];
      UniqueCountsOnce(t[1..], x);
    }
  }

  /** Rows identical in every field come out exactly once. */
  lemma DedupCountsOnce(t: seq<Row>, x: Row)
    requires x in t
    ensures multiset(Dedup(t))[x] == 1
  {
    DedupMembers(t);
    DedupUnique(t);
    UniqueCountsOnce(Dedup(t), x);
  }

  // ---------------------------------------------------------------------------
  // dropna(subset=["temp", "humidite"])

  /** A row with both the temperature and the humidity present. */
  predicate HasReadings(x: Row)
  {
    !x.temp.Null? && !x.humidite.Null?
  }

  /** `dropna(subset=["temp", "humidite"])`. */
  function FilterNonNull(t: seq<Row>): seq<Row>
  {
    if t == [] then []
    else (if HasReadings(t[0]) then [t[0]] else []) + FilterNonNull(t[1..])
  }

  /** The rows kept are exactly the input rows with both readings present. */
  lemma {:induction false} FilterMembers(t: seq<Row>)
    ensures forall x :: x in FilterNonNull(t) <==> x in t && HasReadings(x)
    ensures |FilterNonNull(t)| <= |t|
  {
    if t != [] {
      FilterMembers(t[1..]);
      assert t == [t[0]] + t[1..];
    }
  }

  /** Filtering goes row by row: the filter of a concatenation is the concatenation
      of the filters, so relative order is preserved. */
  lemma {:induction false} FilterAppend(a: seq<Row>, b: seq<Row>)
    ensures FilterNonNull(a + b) == FilterNonNull(a) + FilterNonNull(b)
  {
    if a == [] {
      assert a + b == b;
    } else {
      assert (a + b)[0] == a[0] && (a + b)[1..] == a[1..] + b;
      var head := if HasReadings(a[0]) then [a[0]] else [];
      assert FilterNonNull(a + b) == head + FilterNonNull(a[1..] + b);
      FilterAppend(a[1..], b);
      assert head + (FilterNonNull(a[1..]) + FilterNonNull(b)) == (head + FilterNonNull(a[1..])) + FilterNonNull(b);
    }
  }

  /** Filtering keeps a table without duplicates free of duplicates. */
  lemma {:induction false} FilterUnique(t: seq<Row>)
    requires NoDuplicates(t)
    ensures NoDuplicates(FilterNonNull(t))
  {
    if t != [] {
      assert NoDuplicates(t[1..]) by {
        forall i, j | 0 <= i < j < |t[1..]| ensures t[1..][i] != t[1..][j] {
          assert t[i + 1] != t[j + 1];
        }
      }
      FilterUnique(t[1..]);
      FilterMembers(t[1..]);
    }
  }

  /** A table whose rows all have both readings is left as it is. */
  lemma {:induction false} FilterOfComplete(t: seq<Row>)
    requires forall i :: 0 <= i < |t| ==> HasReadings(t[i])
    ensures FilterNonNull(t) == t
  {
    if t != [] {
      FilterOfComplete(t[1..]);
      assert [t[0]] + t[1..] == t;
    }
  }

  // ---------------------------------------------------------------------------
  // pd.to_numeric(df[col], errors="coerce") for the five numeric columns

  /** One cell through `pd.to_numeric(..., errors="coerce")`: a number stays as it
      is, a missing value stays missing, a string becomes what the parser reads or
      missing when it reads nothing. It never raises on the cells it is given. */
  function CoerceCell(c: Cell, parse: Parser): (d: Cell)
    requires !c.Nested?
    ensures d.Num? || d.Null?
    ensures c.Num? || c.Null? ==> d == c
    ensures c.Str? && parse(c.text).None? ==> d == Null
    ensures c.Str? && parse(c.text).Some? ==> d == Num(parse(c.text).value)
  {
    match c
    case Str(s) => if parse(s).Some? then Num(parse(s).value) else Null
    case _ => c
  }

  /** A row whose numeric columns hold only numbers or missing values. */
  predicate IsNumeric(x: Row)
  {
    forall c :: c in NumericColumns ==> Get(x, c).Num? || Get(x, c).Null?
  }

  predicate NumericOnly(t: seq<Row>)
  {
    forall i :: 0 <= i < |t| ==> IsNumeric(t[i])
  }

  /** The five numeric columns of a row coerced, the others kept. */
  function CoerceRow(x: Row, parse: Parser): Row
    requires Hashable(x)
  {
    x.(temp := CoerceCell(x.temp, parse), tempMin := CoerceCell(x.tempMin, parse),
       tempMax := CoerceCell(x.tempMax, parse), humidite := CoerceCell(x.humidite, parse),
       vitesseVent := CoerceCell(x.vitesseVent, parse))
  }

  /** The table after the loop over the numeric columns. */
  function MapCoerce(t: seq<Row>, parse: Parser): seq<Row>
    requires AllHashable(t)
  {
    seq(|t|, i requires 0 <= i < |t| => CoerceRow(t[i], parse))
  }

  /** Coercion never drops or adds a row, leaves the non-numeric columns alone,
      keeps numbers and missing values, and turns every other value into a number
      (when it parses) or a missing value (when it does not). */
  lemma CoercionMeaning(t: seq<Row>, parse: Parser)
    requires AllHashable(t)
    ensures |MapCoerce(t, parse)| == |t|
    ensures NumericOnly(MapCoerce(t, parse))
    ensures forall i, c :: 0 <= i < |t| && c !in NumericColumns ==> Get(MapCoerce(t, parse)[i], c) == Get(t[i], c)
    ensures forall i, c :: 0 <= i < |t| && c in NumericColumns && (Get(t[i], c).Num? || Get(t[i], c).Null?) ==>
              Get(MapCoerce(t, parse)[i], c) == Get(t[i], c)
    ensures forall i, c :: 0 <= i < |t| && c in NumericColumns && Get(t[i], c).Str? ==>
              Get(MapCoerce(t, parse)[i], c) ==
                (if parse(Get(t[i], c).text).Some? then Num(parse(Get(t[i], c).text).value) else Null)
  {
  }

  /** Coercing twice is coercing once. */
  lemma CoercionIdempotent(t: seq<Row>, parse: Parser)
    requires AllHashable(t)
    ensures AllHashable(MapCoerce(t, parse))
    ensures MapCoerce(MapCoerce(t, parse), parse) == MapCoerce(t, parse)
  {
  }

  /** On a table already numeric, coercion changes nothing. */
  lemma CoercionOfNumeric(t: seq<Row>, parse: Parser)
    requires AllHashable(t) && NumericOnly(t)
    ensures MapCoerce(t, parse) == t
  {
    forall i | 0 <= i < |t| ensures CoerceRow(t[i], parse) == t[i] {
      var x := t[i];
      assert Get(x, Temp) == x.temp && Get(x, TempMin) == x.tempMin && Get(x, TempMax) == x.tempMax;
      assert Get(x, Humidite) == x.humidite && Get(x, VitesseVent) == x.vitesseVent;
    }
    assert MapCoerce(t, parse) == t;
  }

  /** One column of the table through `pd.to_numeric`: `df[col] = pd.to_numeric(df[col], ...)`. */
  function CoerceColumn(t: seq<Row>, c: Column, parse: Parser): (r: seq<Row>)
    requires forall i :: 0 <= i < |t| ==> !Get(t[i], c).Nested?
  {
    seq(|t|, i requires 0 <= i < |t| => Set(t[i], c, CoerceCell(Get(t[i], c), parse)))
  }

  /** A row after the first `k` iterations of the column loop. */
  function CoerceFirst(x: Row, k: nat, parse: Parser): (y: Row)
    requires k <= |NumericColumns| && Hashable(x)
    ensures Hashable(y)
  {
    if k == 0 then x
    else
      var y := CoerceFirst(x, k - 1, parse);
      var c := NumericColumns[k - 1];
      HashableIff(y);
      var z := Set(y, c, CoerceCell(Get(y, c), parse));
      HashableIff(z);
      z
  }

  lemma CoerceFirstAll(x: Row, parse: Parser)
    requires Hashable(x)
    ensures CoerceFirst(x, |NumericColumns|, parse) == CoerceRow(x, parse)
  {
    assert CoerceFirst(x, 0, parse) == x;
    var y1 := CoerceFirst(x, 1, parse);
    var y2 := CoerceFirst(x, 2, parse);
    var y3 := CoerceFirst(x, 3, parse);
    var y4 := CoerceFirst(x, 4, parse);
    assert y1 == x.(temp := CoerceCell(x.temp, parse));
    assert y2 == y1.(tempMin := CoerceCell(x.tempMin, parse));
    assert y3 == y2.(tempMax := CoerceCell(x.tempMax, parse));
    assert y4 == y3.(humidite := CoerceCell(x.humidite, parse));
  }

  // ---------------------------------------------------------------------------
  // df["scrape_date"] = datetime.now().strftime("%Y-%m-%d %H:%M:%S")

  /** Every row gets the one stamp; every other column is left as it was. */
  function Stamp(t: seq<Row>, stamp: string): (r: seq<Row>)
    ensures |r| == |t|
    ensures forall i :: 0 <= i < |r| ==> r[i].scrapeDate == Str(stamp)
    ensures forall i, c :: 0 <= i < |r| && c != ScrapeDate ==> Get(r[i], c) == Get(t[i], c)
  {
    seq(|t|, i requires 0 <= i < |t| => t[i].(scrapeDate := Str(stamp)))
  }

  /** All rows share the same `scrape_date` (or all lack it). */
  predicate UniformStamp(t: seq<Row>)
  {
    forall i, j :: 0 <= i < |t| && 0 <= j < |t| ==> t[i].scrapeDate == t[j].scrapeDate
  }

  /** Stamping a table whose stamp column is uniform merges no rows. */
  lemma StampKeepsUnique(t: seq<Row>, stamp: string)
    requires NoDuplicates(t) && UniformStamp(t)
    ensures NoDuplicates(Stamp(t, stamp))
  {
  }

  // ---------------------------------------------------------------------------
  // transform_data

  /** The row a kept input row becomes. */
  function Finish(x: Row, parse: Parser, stamp: string): Row
    requires Hashable(x)
  {
    CoerceRow(x, parse).(scrapeDate := Str(stamp))
  }

  /** `transform_data` on a table, with `now` the clock reading. */
  function Transform(table: Table, now: DateTime, parse: Parser): Result<Table, TransformError>
  {
    match table
    case Columnless => Failure(MissingColumns)
    case Frame(rows) =>
      if !AllHashable(rows) then Failure(Unhashable)
      else
        var kept := FilterNonNull(Dedup(rows));
        CleanedHashable(rows);
        Success(Frame(Stamp(MapCoerce(kept, parse), Format(now))))
  }

  /** `transform_data` as `Transform.py` writes it: whole-table steps and a loop that
      overwrites one numeric column per iteration. */
  method TransformData(table: Table, now: DateTime, parse: Parser) returns (result: Result<Table, TransformError>)
    ensures result == Transform(table, now, parse)
  {
    match table {
      case Columnless =>
        // drop_duplicates is harmless here; dropna does not find its subset columns
        return Failure(MissingColumns);
      case Frame(rows) =>
        if !AllHashable(rows) {
          return Failure(Unhashable);
        }
        var df := Dedup(rows);
        df := FilterNonNull(df);
        CleanedHashable(rows);
        ghost var kept := df;
        for k := 0 to |NumericColumns|
          invariant |df| == |kept|
          invariant forall i :: 0 <= i < |df| ==> df[i] == CoerceFirst(kept[i], k, parse)
        {
          var col := NumericColumns[k];
          forall i | 0 <= i < |df| ensures !Get(df[i], col).Nested? {
            HashableIff(df[i]);
          }
          df := CoerceColumn(df, col, parse);
        }
        forall i | 0 <= i < |df| ensures df[i] == MapCoerce(kept, parse)[i] {
          CoerceFirstAll(kept[i], parse);
        }
        assert df == MapCoerce(kept, parse);
        df := Stamp(df, Format(now));
        return Success(Frame(df));
    }
  }

  // ---------------------------------------------------------------------------
  // Properties of transform_data

  /** A sequence without duplicates has as many elements as distinct values. */
  lemma {:induction false} UniqueCard(t: seq<Row>)
    requires NoDuplicates(t)
    ensures |set x | x in t| == |t|
  {
    if t != [] {
      var tail := t[1..];
      assert NoDuplicates(tail) by {
        forall i, j | 0 <= i < j < |tail| ensures tail[i] != tail[j] {
          assert t[i + 1] != t[j + 1];
        }
      }
      UniqueCard(tail);
      assert (set x | x in t) == {t[0]} + (set x | x in tail);
      assert t[0] !in tail by {
        forall k | 0 <= k < |tail| ensures tail[k] != t[0] {
          assert t[k + 1] != t[0];
        }
      }
    }
  }

  /** The call fails exactly when the frame has no columns (KeyError) or a cell
      holds a dict or a list (TypeError); a frame with zero rows but with its columns
      comes back stamped and empty. */
  lemma TransformFailures(table: Table, now: DateTime, parse: Parser)
    ensures Transform(table, now, parse) == Failure(MissingColumns) <==> table.Columnless?
    ensures Transform(table, now, parse) == Failure(Unhashable) <==> table.Frame? && !AllHashable(table.rows)
    ensures Transform(Frame([]), now, parse) == Success(Frame([]))
  {
  }

  /** On success, the output rows are exactly the input rows that have both
      readings, coerced and stamped, one per distinct such row: rows whose
      temperature or humidity is missing before coercion contribute nothing, and
      every output row carries the one stamp of the call. */
  lemma TransformRows(rows: seq<Row>, now: DateTime, parse: Parser)
    requires AllHashable(rows)
    ensures Transform(Frame(rows), now, parse).Success?
    ensures Transform(Frame(rows), now, parse).value.Frame?
    ensures var out := Transform(Frame(rows), now, parse).value.rows;
              && |out| <= |rows|
              && |out| == |set x | x in rows && HasReadings(x)|
              && (forall i :: 0 <= i < |out| ==> out[i].scrapeDate == Str(Format(now)))
              && (forall y :: y in out <==>
                    exists j :: 0 <= j < |rows| && HasReadings(rows[j]) && y == Finish(rows[j], parse, Format(now)))
  {
    var kept := FilterNonNull(Dedup(rows));
    KeptRows(rows);
    var out := Transform(Frame(rows), now, parse).value.rows;
    assert out == Stamp(MapCoerce(kept, parse), Format(now));
    assert forall i :: 0 <= i < |out| ==> out[i] == Finish(kept[i], parse, Format(now));
    forall y | y in out
      ensures exists j :: 0 <= j < |rows| && HasReadings(rows[j]) && y == Finish(rows[j], parse, Format(now))
    {
      var i :| 0 <= i < |out| && out[i] == y;
      assert kept[i] in rows;
      var j :| 0 <= j < |rows| && rows[j] == kept[i];
    }
    forall j | 0 <= j < |rows| && HasReadings(rows[j]) ensures Finish(rows[j], parse, Format(now)) in out {
      assert rows[j] in kept;
      var i :| 0 <= i < |kept| && kept[i] == rows[j];
      assert out[i] == Finish(rows[j], parse, Format(now));
    }
  }

  /** What reaches coercion: the distinct input rows that have both readings, each once. */
  lemma KeptRows(rows: seq<Row>)
    requires AllHashable(rows)
    ensures var kept := FilterNonNull(Dedup(rows));
              && AllHashable(kept) && NoDuplicates(kept) && |kept| <= |rows|
              && |kept| == |set x | x in rows && HasReadings(x)|
              && (forall x :: x in kept <==> x in rows && HasReadings(x))
  {
    var kept := FilterNonNull(Dedup(rows));
    CleanedHashable(rows);
    DedupMembers(rows);
    DedupLength(rows);
    FilterMembers(Dedup(rows));
    DedupUnique(rows);
    FilterUnique(Dedup(rows));
    UniqueCard(kept);
    assert (set x | x in kept) == (set x | x in rows && HasReadings(x));
  }

  /** What reaches the stamp when the input is numeric with a uniform stamp
      column: the first occurrences with both readings, unchanged by coercion. */
  lemma KeptOfNumeric(rows: seq<Row>, parse: Parser)
    requires AllHashable(rows) && NumericOnly(rows) && UniformStamp(rows)
    ensures var kept := FilterNonNull(Dedup(rows));
              && AllHashable(kept) && NumericOnly(kept) && UniformStamp(kept) && NoDuplicates(kept)
              && (forall i :: 0 <= i < |kept| ==> HasReadings(kept[i]))
              && (forall x :: x in kept <==> x in rows && HasReadings(x))
              && MapCoerce(kept, parse) == kept
  {
    var kept := FilterNonNull(Dedup(rows));
    CleanedHashable(rows);
    DedupMembers(rows);
    FilterMembers(Dedup(rows));
    DedupUnique(rows);
    FilterUnique(Dedup(rows));
    assert forall i :: 0 <= i < |kept| ==> kept[i] in rows;
    CoercionOfNumeric(kept, parse);
  }

  /** On a table whose numeric columns hold only numbers or missing values and
      whose stamp column is uniform, the output
      has no row without a reading and no two equal rows, and each kept input row
      comes out exactly once, unchanged but for its stamp. */
  lemma TransformOfNumeric(rows: seq<Row>, now: DateTime, parse: Parser)
    requires AllHashable(rows) && NumericOnly(rows) && UniformStamp(rows)
    ensures Transform(Frame(rows), now, parse).Success?
    ensures Transform(Frame(rows), now, parse).value.Frame?
    ensures var out := Transform(Frame(rows), now, parse).value.rows;
              && (forall i :: 0 <= i < |out| ==> HasReadings(out[i]))
              && NoDuplicates(out)
              && (forall j :: 0 <= j < |rows| && HasReadings(rows[j]) ==>
                    multiset(out)[rows[j].(scrapeDate := Str(Format(now)))] == 1)
  {
    var kept := FilterNonNull(Dedup(rows));
    var stamp := Format(now);
    KeptOfNumeric(rows, parse);
    var out := Stamp(kept, stamp);
    assert Transform(Frame(rows), now, parse) == Success(Frame(out));
    StampKeepsUnique(kept, stamp);
    forall i | 0 <= i < |out| ensures HasReadings(out[i]) {
      assert Get(out[i], Temp) == Get(kept[i], Temp) && Get(out[i], Humidite) == Get(kept[i], Humidite);
    }
    forall j | 0 <= j < |rows| && HasReadings(rows[j])
      ensures multiset(out)[rows[j].(scrapeDate := Str(stamp))] == 1
    {
      assert rows[j] in kept;
      var i :| 0 <= i < |kept| && kept[i] == rows[j];
      assert out[i] == rows[j].(scrapeDate := Str(stamp));
      UniqueCountsOnce(out, out[i]);
    }
  }

  /** Running the transform again on its own output, that of a numeric table with a
      uniform stamp column, removes no row and changes nothing but the stamp. */
  lemma TransformTwice(rows: seq<Row>, now: DateTime, later: DateTime, parse: Parser)
    requires AllHashable(rows) && NumericOnly(rows) && UniformStamp(rows)
    ensures Transform(Frame(rows), now, parse).Success?
    ensures var once := Transform(Frame(rows), now, parse).value;
              once.Frame? && Transform(once, later, parse) == Success(Frame(Stamp(once.rows, Format(later))))
  {
    var kept := FilterNonNull(Dedup(rows));
    KeptOfNumeric(rows, parse);
    var out := Stamp(kept, Format(now));
    assert Transform(Frame(rows), now, parse) == Success(Frame(out));
    StampKeepsClean(kept, Format(now));
    StampKeepsUnique(kept, Format(now));
    DedupOfUnique(out);
    FilterOfComplete(out);
    CoercionOfNumeric(out, parse);
  }

  /** Stamping keeps a clean table clean: hashable, numeric, with both readings. */
  lemma StampKeepsClean(t: seq<Row>, stamp: string)
    requires AllHashable(t) && NumericOnly(t) && forall i :: 0 <= i < |t| ==> HasReadings(t[i])
    ensures var r := Stamp(t, stamp);
              AllHashable(r) && NumericOnly(r) && forall i :: 0 <= i < |r| ==> HasReadings(r[i])
  {
    var r := Stamp(t, stamp);
    forall i | 0 <= i < |r| ensures IsNumeric(r[i]) {
      assert forall c :: c in NumericColumns ==> Get(r[i], c) == Get(t[i], c);
    }
  }

  /** Coercion runs after the drop: a temperature that is a string the parser
      cannot read passes the drop and comes out missing. */
  lemma UnreadableTempSurvivesAsNull(x: Row, now: DateTime, parse: Parser)
    requires Hashable(x) && x.temp.Str? && parse(x.temp.text).None? && !x.humidite.Null?
    ensures Transform(Frame([x]), now, parse).Success?
    ensures var out := Transform(Frame([x]), now, parse).value;
              out.Frame? && |out.rows| == 1 && out.rows[0].temp == Null
  {
    DedupOfUnique([x]);
    FilterOfComplete([x]);
    var out := Stamp(MapCoerce([x], parse), Format(now));
    assert Transform(Frame([x]), now, parse) == Success(Frame(out));
    assert MapCoerce([x], parse)[0] == CoerceRow(x, parse);
  }

  /** The re-run of `TransformTwice` needs numeric input: a row whose temperature
      is a string the parser cannot read survives the first run with a missing
      temperature, and the second run drops it. */
  lemma SecondRunCanDropRow(x: Row, now: DateTime, later: DateTime, parse: Parser)
    requires Hashable(x) && x.temp.Str? && parse(x.temp.text).None? && !x.humidite.Null?
    ensures Transform(Frame([x]), now, parse).Success?
    ensures var once := Transform(Frame([x]), now, parse).value;
              once.Frame? && |once.rows| == 1 && Transform(once, later, parse) == Success(Frame([]))
  {
    UnreadableTempSurvivesAsNull(x, now, parse);
    var once := Transform(Frame([x]), now, parse).value;
    var y := once.rows[0];
    assert once.rows == [y];
    CleanedHashable([x]);
    assert Hashable(y);
    DedupOfUnique([y]);
    assert FilterNonNull([y]) == [];
  }

  /** Deduplication runs before coercion: two rows that differ only in how the
      same temperature is written (a string the parser reads, and that number)
      both survive and come out equal. */
  lemma CoercionCanRecreateDuplicates(x: Row, now: DateTime, parse: Parser)
    requires Hashable(x) && x.temp.Num? && !x.humidite.Null? && IsNumeric(x)
    requires parse("290") == Some(x.temp.value)
    ensures var y := x.(temp := Str("290"));
              var out := Transform(Frame([x, y]), now, parse);
              out.Success? && out.value.Frame? && |out.value.rows| == 2 && out.value.rows[0] == out.value.rows[1]
  {
    var y := x.(temp := Str("290"));
    var t := [x, y];
    assert x != y;
    DedupOfUnique(t);
    FilterOfComplete(t);
    var out := Stamp(MapCoerce(t, parse), Format(now));
    assert Transform(Frame(t), now, parse) == Success(Frame(out));
    assert MapCoerce(t, parse)[0] == CoerceRow(x, parse) && MapCoerce(t, parse)[1] == CoerceRow(y, parse);
  }
}
