/** Worked examples of the Transform stage on OpenWeatherMap snapshots of the shape the
    Extract stage saves: the fixed mapping of a complete snapshot onto a row, a
    snapshot without humidity, and a small listing end to end. */
module Scenarios {
  import opened Wrappers
  import opened JsonDoc
  import opened Rows
  import opened Timestamps
  import opened LoadRaw
  import opened Clean

  /** The `main` object of a snapshot; `humidity` may be absent. */
  function MainBlock(temp: real, tempMin: real, tempMax: real, humidity: Option<real>): Json {
    var m := map["temp" := JNumber(temp), "temp_min" := JNumber(tempMin), "temp_max" := JNumber(tempMax)];
    JObject(if humidity.Some? then m["humidity" := JNumber(humidity.value)] else m)
  }

  /** A snapshot with the five top-level keys the row reads. */
  function Snapshot(name: string, country: string, main: Json, description: string, speed: real): Json {
    JObject(map[
      "name" := JString(name),
      "sys" := JObject(map["country" := JString(country)]),
      "main" := main,
      "weather" := JArray([JObject(map["description" := JString(description)])]),
      "wind" := JObject(map["speed" := JNumber(speed)])])
  }

  /** The `name` and `sys.country` chains of a snapshot. */
  lemma SnapshotPlace(name: string, country: string, main: Json, description: string, speed: real)
    ensures var d := Snapshot(name, country, main, description, speed);
      && GetPath(d, Paths[0]) == Success(JString(name))
      && GetPath(d, Paths[1]) == Success(JString(country))
  {
    var d := Snapshot(name, country, main, description, speed);
    GetPathStep(d, Name("name"), []);
    GetPathStep(d, Name("sys"), [Name("country")]);
    GetPathStep(d.fields["sys"], Name("country"), []);
  }

  /** The `weather[0].description` and `wind.speed` chains of a snapshot. */
  lemma SnapshotSky(name: string, country: string, main: Json, description: string, speed: real)
    ensures var d := Snapshot(name, country, main, description, speed);
      && GetPath(d, Paths[6]) == Success(JString(description))
      && GetPath(d, Paths[7]) == Success(JNumber(speed))
  {
    var d := Snapshot(name, country, main, description, speed);
    GetPathStep(d, Name("weather"), [Pos(0), Name("description")]);
    GetPathStep(d.fields["weather"], Pos(0), [Name("description")]);
    GetPathStep(d.fields["weather"].items[0], Name("description"), []);
    GetPathStep(d, Name("wind"), [Name("speed")]);
    GetPathStep(d.fields["wind"], Name("speed"), []);
  }

  lemma SnapshotFields(name: string, country: string, main: Json, description: string, speed: real)
    ensures var d := Snapshot(name, country, main, description, speed);
      && GetPath(d, Paths[0]) == Success(JString(name))
      && GetPath(d, Paths[1]) == Success(JString(country))
      && GetPath(d, Paths[6]) == Success(JString(description))
      && GetPath(d, Paths[7]) == Success(JNumber(speed))
  {
    SnapshotPlace(name, country, main, description, speed);
    SnapshotSky(name, country, main, description, speed);
  }

  lemma SnapshotMain(name: string, country: string, main: Json, description: string, speed: real)
    ensures var d := Snapshot(name, country, main, description, speed);
      && GetPath(d, Paths[2]) == Subscript(main, Name("temp"))
      && GetPath(d, Paths[3]) == Subscript(main, Name("temp_min"))
      && GetPath(d, Paths[4]) == Subscript(main, Name("temp_max"))
      && GetPath(d, Paths[5]) == Subscript(main, Name("humidity"))
  {
  }

  lemma MainBlockReads(temp: real, tempMin: real, tempMax: real, humidity: Option<real>)
    ensures var m := MainBlock(temp, tempMin, tempMax, humidity);
      && Subscript(m, Name("temp")) == Success(JNumber(temp))
      && Subscript(m, Name("temp_min")) == Success(JNumber(tempMin))
      && Subscript(m, Name("temp_max")) == Success(JNumber(tempMax))
      && Subscript(m, Name("humidity")) ==
           if humidity.Some? then Success(JNumber(humidity.value)) else Failure(KeyError(Name("humidity")))
  {
  }

  /** A complete snapshot becomes the row of its eight values, in column order,
      with no stamp. */
  lemma ProjectSnapshot(name: string, country: string, temp: real, tempMin: real, tempMax: real,
                        humidity: real, description: string, speed: real)
    ensures Project(Snapshot(name, country, MainBlock(temp, tempMin, tempMax, Some(humidity)), description, speed)) ==
              Success(Row(Str(name), Str(country), Num(temp), Num(tempMin), Num(tempMax), Num(humidity),
                          Str(description), Num(speed), Null))
  {
    var main := MainBlock(temp, tempMin, tempMax, Some(humidity));
    var d := Snapshot(name, country, main, description, speed);
    SnapshotFields(name, country, main, description, speed);
    MainBlockReads(temp, tempMin, tempMax, Some(humidity));
    SnapshotMain(name, country, main, description, speed);
    forall i | 0 <= i < |Paths| ensures GetPath(d, Paths[i]).Success? {
      assert i in {0, 1, 2, 3, 4, 5, 6, 7};
    }
    ProjectByPaths(d);
  }

  /** A `main` object whose temperature is written as text. */
  function TextMainBlock(text: string, tempMin: real, tempMax: real, humidity: real): Json {
    JObject(map["temp" := JString(text), "temp_min" := JNumber(tempMin),
                "temp_max" := JNumber(tempMax), "humidity" := JNumber(humidity)])
  }

  lemma TextMainBlockReads(text: string, tempMin: real, tempMax: real, humidity: real)
    ensures var m := TextMainBlock(text, tempMin, tempMax, humidity);
      && Subscript(m, Name("temp")) == Success(JString(text))
      && Subscript(m, Name("temp_min")) == Success(JNumber(tempMin))
      && Subscript(m, Name("temp_max")) == Success(JNumber(tempMax))
      && Subscript(m, Name("humidity")) == Success(JNumber(humidity))
  {
  }

  /** A snapshot whose temperature is written as text becomes the row of its eight
      values, the temperature as a string. */
  lemma ProjectTextSnapshot(name: string, country: string, text: string, tempMin: real, tempMax: real,
                            humidity: real, description: string, speed: real)
    ensures Project(Snapshot(name, country, TextMainBlock(text, tempMin, tempMax, humidity), description, speed)) ==
              Success(Row(Str(name), Str(country), Str(text), Num(tempMin), Num(tempMax), Num(humidity),
                          Str(description), Num(speed), Null))
  {
    var main := TextMainBlock(text, tempMin, tempMax, humidity);
    var d := Snapshot(name, country, main, description, speed);
    SnapshotFields(name, country, main, description, speed);
    TextMainBlockReads(text, tempMin, tempMax, humidity);
    SnapshotMain(name, country, main, description, speed);
    forall i | 0 <= i < |Paths| ensures GetPath(d, Paths[i]).Success? {
      assert i in {0, 1, 2, 3, 4, 5, 6, 7};
    }
    ProjectByPaths(d);
  }

  /** `load_data` copies what the snapshot holds: a temperature written as text
      reaches the table as a string, so not every table it builds is numeric. */
  lemma TextTemperatureReachesTable(name: string, country: string, text: string, tempMin: real, tempMax: real,
                                    humidity: real, description: string, speed: real)
    ensures var r := Project(Snapshot(name, country, TextMainBlock(text, tempMin, tempMax, humidity), description, speed));
              r.Success? && r.value.temp == Str(text) && !IsNumeric(r.value)
  {
    ProjectTextSnapshot(name, country, text, tempMin, tempMax, humidity, description, speed);
    var x := Row(Str(name), Str(country), Str(text), Num(tempMin), Num(tempMax), Num(humidity),
                 Str(description), Num(speed), Null);
    assert Get(x, Temp) == Str(text);
  }

  /** A snapshot whose `main` lacks `humidity` fails with the KeyError that names it
      (the five keys read before it being present). */
  lemma ProjectWithoutHumidity(name: string, country: string, temp: real, tempMin: real, tempMax: real,
                               description: string, speed: real)
    ensures Project(Snapshot(name, country, MainBlock(temp, tempMin, tempMax, None), description, speed)) ==
              Failure(KeyError(Name("humidity")))
  {
    var main := MainBlock(temp, tempMin, tempMax, None);
    var d := Snapshot(name, country, main, description, speed);
    SnapshotFields(name, country, main, description, speed);
    MainBlockReads(temp, tempMin, tempMax, None);
    SnapshotMain(name, country, main, description, speed);
    ProjectByPaths(d);
  }

  function ParisDoc(): Json {
    Snapshot("Paris", "FR", MainBlock(290.1, 288.0, 292.0, Some(65.0)), "clear sky", 3.5)
  }

  function BerlinDoc(): Json {
    Snapshot("Berlin", "DE", MainBlock(280.0, 279.0, 281.0, None), "rain", 5.0)
  }

  function ParisRow(): Row {
    Row(Str("Paris"), Str("FR"), Num(290.1), Num(288.0), Num(292.0), Num(65.0), Str("clear sky"), Num(3.5), Null)
  }

  /** A numeric row with both readings comes out of the transform alone,
      unchanged but for its stamp. */
  lemma TransformSingleRow(x: Row, now: DateTime, parse: Parser)
    requires Hashable(x) && IsNumeric(x) && HasReadings(x)
    ensures Transform(Frame([x]), now, parse) == Success(Frame([x.(scrapeDate := Str(Format(now)))]))
  {
    KeepsSingleRow(x, parse);
    assert Transform(Frame([x]), now, parse) == Success(Frame(Stamp([x], Format(now))));
    StampSingleRow(x, Format(now));
  }

  lemma KeepsSingleRow(x: Row, parse: Parser)
    requires Hashable(x) && IsNumeric(x) && HasReadings(x)
    ensures Dedup([x]) == [x] && FilterNonNull([x]) == [x] && MapCoerce([x], parse) == [x]
  {
    assert [x][..0] == [];
    CoercionOfNumeric([x], parse);
  }

  lemma StampSingleRow(x: Row, stamp: string)
    ensures Stamp([x], stamp) == [x.(scrapeDate := Str(stamp))]
  {
  }

  lemma ParisProjects()
    ensures Project(ParisDoc()) == Success(ParisRow())
  {
    ProjectSnapshot("Paris", "FR", 290.1, 288.0, 292.0, 65.0, "clear sky", 3.5);
  }

  lemma BerlinLacksHumidity()
    ensures Project(BerlinDoc()) == Failure(KeyError(Name("humidity")))
  {
    ProjectWithoutHumidity("Berlin", "DE", 280.0, 279.0, 281.0, "rain", 5.0);
  }

  lemma ParisRowIsClean()
    ensures Hashable(ParisRow()) && IsNumeric(ParisRow()) && HasReadings(ParisRow())
  {
  }

  /** The Paris snapshot alone gives one row, which the transform stamps and
      leaves otherwise as it is. */
  lemma ParisEndToEnd(now: DateTime, parse: Parser)
    ensures ScanDir([Entry("Paris.json", Parsed(ParisDoc()))]) == Scan([ParisRow()], [], None)
    ensures Transform(Frame([ParisRow()]), now, parse) ==
              Success(Frame([ParisRow().(scrapeDate := Str(Format(now)))]))
  {
    var e := Entry("Paris.json", Parsed(ParisDoc()));
    ParisProjects();
    assert EndsWith(e.name, Extension);
    ScanAppendsRow([], e.name, ParisDoc(), ParisRow());
    assert [] + [e] == [e];
    ParisRowIsClean();
    TransformSingleRow(ParisRow(), now, parse);
  }

  function MixedListing(): seq<Entry>
  {
    [Entry("notes.txt", Undecodable), Entry("Berlin.json", Parsed(BerlinDoc())),
     Entry("Paris.json", Parsed(ParisDoc())), Entry("Paris-copy.json", Parsed(ParisDoc()))]
  }

  /** The text file contributes nothing and the snapshot without humidity one error
      line naming its file and key. */
  lemma MixedListingHead()
    ensures ScanDir(MixedListing()[..2]) == Scan([], [MissingKey("Berlin.json", Name("humidity"))], None)
  {
    var dir := MixedListing();
    assert !EndsWith(dir[0].name, Extension);
    assert EndsWith(dir[1].name, Extension);
    BerlinLacksHumidity();
    ScanSkipsForeign([], dir[0]);
    assert [] + [dir[0]] == dir[..1];
    ScanLogsMissingKey(dir[..1], dir[1].name, BerlinDoc(), Name("humidity"));
    assert dir[..1] + [dir[1]] == dir[..2];
  }

  /** After the first two entries, the first copy of Paris adds its row. */
  lemma MixedListingThree()
    ensures ScanDir(MixedListing()[..3]) ==
              Scan([ParisRow()], [MissingKey("Berlin.json", Name("humidity"))], None)
  {
    var dir := MixedListing();
    MixedListingHead();
    assert EndsWith(dir[2].name, Extension);
    ParisProjects();
    ScanAppendsRow(dir[..2], dir[2].name, ParisDoc(), ParisRow());
    assert dir[..2] + [dir[2]] == dir[..3];
  }

  /** A listing with a text file, a snapshot without humidity and the Paris
      snapshot twice: the text file contributes nothing, the incomplete snapshot
      one error line naming its file and key, and each copy of Paris one row. */
  lemma MixedListingScan()
    ensures ScanDir(MixedListing()) ==
              Scan([ParisRow(), ParisRow()], [MissingKey("Berlin.json", Name("humidity"))], None)
  {
    var dir := MixedListing();
    MixedListingThree();
    assert EndsWith(dir[3].name, Extension);
    ParisProjects();
    ScanAppendsRow(dir[..3], dir[3].name, ParisDoc(), ParisRow());
    assert dir[..3] + [dir[3]] == dir;
  }

  /** The two Paris rows of that listing are equal, so the transform keeps one. */
  lemma MixedListingTransform(now: DateTime, parse: Parser)
    ensures Transform(Frame([ParisRow(), ParisRow()]), now, parse) ==
              Success(Frame([ParisRow().(scrapeDate := Str(Format(now)))]))
  {
    var t := [ParisRow(), ParisRow()];
    assert t[..1] == [ParisRow()];
    assert Dedup(t) == [ParisRow()];
    ParisRowIsClean();
    TransformSingleRow(ParisRow(), now, parse);
  }
}
