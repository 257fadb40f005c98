/** `load_data` followed by `transform_data`, as the stage's own entry point runs
    them: the table of the scan is what the transform receives. */
module Pipeline {
  import opened Wrappers
  import opened Rows
  import opened Timestamps
  import opened LoadRaw
  import opened Clean

  /** A scan that collects no row hands the transform the column-less frame, and the
      transform then fails at `dropna` instead of returning an empty stamped table;
      a scan that collects rows never meets that error. */
  lemma EmptyScanFailsTransform(dir: seq<Entry>, now: DateTime, parse: Parser)
    requires ScanDir(dir).failure.None?
    ensures Transform(TableOf(ScanDir(dir).rows), now, parse) == Failure(MissingColumns) <==>
              ScanDir(dir).rows == []
  {
  }
}
