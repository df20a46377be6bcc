/**
  The load-test driver (perf-test/run_and_report.js): run the probe once per concurrency level,
  keep the summaries that could be read, then build one report page per task with a table row per
  level and a chart of the p95 latencies. Running the probe is the parameter `run`, the file
  system a map from file names to contents, and `JSON.parse` the parameter `parse`.
*/
module PerfReport {
  import opened Base
  import opened Seqs

  predicate IsDigit(c: char) { '0' as int <= c as int <= '9' as int }

  function Digit(d: nat): (c: char)
    requires d < 10
    ensures IsDigit(c) && c as int - '0' as int == d
  {
    "0123456789"[d]
  }

  /** `Number.prototype.toString()` on a non-negative integer. */
  function DecimalString(n: nat): (s: string)
    ensures |s| >= 1 && forall i :: 0 <= i < |s| ==> IsDigit(s[i])
    decreases n
  {
    if n < 10 then [Digit(n)] else DecimalString(n / 10) + [Digit(n % 10)]
  }

  /** The value of a string of decimal digits. */
  function DigitsValue(s: string): nat
    requires forall i :: 0 <= i < |s| ==> IsDigit(s[i])
  {
    if s == [] then 0
    else
      assert IsDigit(s[|s| - 1]);
      DigitsValue(s[..|s| - 1]) * 10 + (s[|s| - 1] as int - '0' as int)
  }

  /** The longest prefix of `s` made of digits. */
  function LeadingDigits(s: string): (p: string)
    ensures p <= s && forall i :: 0 <= i < |p| ==> IsDigit(p[i])
    ensures |p| < |s| ==> !IsDigit(s[|p|])
  {
    if s == [] || !IsDigit(s[0]) then [] else [s[0]] + LeadingDigits(s[1..])
  }

  /** `parseInt` on a string without sign or leading white space: `None` stands for `NaN`. */
  function ParseInt(s: string): (r: Option<nat>)
    ensures r.None? <==> s == [] || !IsDigit(s[0])
  {
    var p := LeadingDigits(s);
    if p == [] then None else Some(DigitsValue(p))
  }

  lemma {:induction false} LeadingDigitsOfDigits(s: string)
    requires forall i :: 0 <= i < |s| ==> IsDigit(s[i])
    ensures LeadingDigits(s) == s
  {
    if s != [] {
      LeadingDigitsOfDigits(s[1..]);
    }
  }

  lemma {:induction false} DigitsValueOfDecimal(n: nat)
    ensures DigitsValue(DecimalString(n)) == n
    decreases n
  {
    if n >= 10 {
      DigitsValueOfDecimal(n / 10);
      var s := DecimalString(n);
      assert s[..|s| - 1] == DecimalString(n / 10);
    } else {
      assert DecimalString(n)[..0] == [];
    }
  }

  /** `parseInt(n.toString())` is `n` again. */
  lemma DecimalRoundTrip(n: nat)
    ensures ParseInt(DecimalString(n)) == Some(n)
  {
    LeadingDigitsOfDigits(DecimalString(n));
    DigitsValueOfDecimal(n);
  }

  /** The summary file the driver expects for a level. */
  function ArtifactName(vus: nat): string {
    "results_vus_" + DecimalString(vus) + ".json"
  }

  /**
    The summary file the probe writes when its `VUS` environment variable is `env`: the probe's
    `vus` option is `parseInt(env)`, or 5 when `env` is empty.
  */
  function ProbeSummaryName(env: string): string {
    var vus := if env == "" then "5" else match ParseInt(env) case None => "NaN" case Some(n) => DecimalString(n);
    "results_vus_" + vus + ".json"
  }

  /** The probe, started with `VUS` set to `vus.toString()`, writes the file the driver looks for. */
  lemma ProbeWritesExpectedArtifact(vus: nat)
    ensures ProbeSummaryName(DecimalString(vus)) == ArtifactName(vus)
  {
    DecimalRoundTrip(vus);
  }

  /** A metric of the probe's summary: `values` maps field names such as "p(95)" to numbers. */
  datatype Metric = Metric(values: Option<map<string, real>>)

  /** A parsed summary: metric name to metric. */
  type Results = map<string, Metric>

  /** One run of the probe: whether it exited normally, and the summary it wrote, if any. */
  datatype ProbeRun = ProbeRun(exitOk: bool, summary: Option<string>)

  /** What happened at one level of the sweep. */
  datatype LevelOutcome = Stored | RunFailed | ArtifactMissing | ParseFailed

  datatype Sweep = Sweep(resultsByVU: map<nat, Results>, disk: map<string, string>, outcomes: seq<LevelOutcome>)

  /** The file system after attempt `vus`, the outcome, and the parsed summary when there is one. */
  datatype Attempt = Attempt(disk: map<string, string>, outcome: LevelOutcome, results: Option<Results>)

  /** `runK6(vus)` followed by the read and the parse, all inside the driver's `try`. */
  function AttemptLevel(vus: nat, p: ProbeRun, parse: string -> Option<Results>, disk: map<string, string>): (a: Attempt)
    ensures a.outcome == Stored <==> a.results.Some?
    ensures a.outcome == RunFailed <==> !p.exitOk
    ensures a.outcome == ArtifactMissing <==> p.exitOk && ArtifactName(vus) !in a.disk
    ensures a.outcome == Stored <==>
      p.exitOk && ArtifactName(vus) in a.disk && parse(a.disk[ArtifactName(vus)]).Some?
    ensures a.results.Some? ==> ArtifactName(vus) in a.disk && a.results == parse(a.disk[ArtifactName(vus)])
    ensures p.summary.Some? ==> a.disk == disk[ProbeSummaryName(DecimalString(vus)) := p.summary.value]
    ensures p.summary.None? ==> a.disk == disk
  {
    var disk' := if p.summary.Some? then disk[ProbeSummaryName(DecimalString(vus)) := p.summary.value] else disk;
    var name := ArtifactName(vus);
    if !p.exitOk then Attempt(disk', RunFailed, None)
    else if name !in disk' then Attempt(disk', ArtifactMissing, None)
    else match parse(disk'[name])
      case None => Attempt(disk', ParseFailed, None)
      case Some(res) => Attempt(disk', Stored, Some(res))
  }

  /** A probe that exits normally after writing its summary never leaves the driver without a file. */
  lemma SummaryIsFound(vus: nat, p: ProbeRun, parse: string -> Option<Results>, disk: map<string, string>)
    requires p.exitOk && p.summary.Some?
    ensures AttemptLevel(vus, p, parse, disk).outcome != ArtifactMissing
    ensures AttemptLevel(vus, p, parse, disk).outcome == Stored <==> parse(p.summary.value).Some?
  {
    ProbeWritesExpectedArtifact(vus);
  }

  /** The sweep over `levels`, attempt `i` being `run(i)`. */
  function SweepOf(levels: seq<nat>, run: nat -> ProbeRun, parse: string -> Option<Results>, disk: map<string, string>): (s: Sweep)
    ensures |s.outcomes| == |levels|
    decreases |levels|
  {
    if levels == [] then Sweep(map[], disk, [])
    else
      var k := |levels| - 1;
      var s := SweepOf(levels[..k], run, parse, disk);
      var a := AttemptLevel(levels[k], run(k), parse, s.disk);
      var results := if a.results.Some? then s.resultsByVU[levels[k] := a.results.value] else s.resultsByVU;
      Sweep(results, a.disk, s.outcomes + [a.outcome])
  }

  /** Outcome `i` of the sweep is that of `run(i)` at `levels[i]`. */
  lemma {:induction false} SweepPrefix(levels: seq<nat>, run: nat -> ProbeRun, parse: string -> Option<Results>, disk: map<string, string>, k: nat)
    requires k <= |levels|
    ensures SweepOf(levels, run, parse, disk).outcomes[..k] == SweepOf(levels[..k], run, parse, disk).outcomes
    decreases |levels|
  {
    if k < |levels| {
      var n := |levels| - 1;
      assert levels[..n][..k] == levels[..k];
      SweepPrefix(levels[..n], run, parse, disk, k);
    } else {
      assert levels[..k] == levels;
    }
  }

  /** A level has summary data exactly when some attempt at that level stored one. */
  lemma {:induction false} SweepKeepsStoredLevels(levels: seq<nat>, run: nat -> ProbeRun, parse: string -> Option<Results>, disk: map<string, string>)
    ensures forall v :: v in SweepOf(levels, run, parse, disk).resultsByVU <==>
      exists i :: 0 <= i < |levels| && levels[i] == v && SweepOf(levels, run, parse, disk).outcomes[i] == Stored
    decreases |levels|
  {
    if levels != [] {
      var k := |levels| - 1;
      var s := SweepOf(levels, run, parse, disk);
      var s0 := SweepOf(levels[..k], run, parse, disk);
      SweepKeepsStoredLevels(levels[..k], run, parse, disk);
      var a := AttemptLevel(levels[k], run(k), parse, s0.disk);
      assert s.outcomes == s0.outcomes + [a.outcome];
      assert forall i :: 0 <= i < k ==> levels[..k][i] == levels[i] && s.outcomes[i] == s0.outcomes[i];
      assert a.results.Some? ==> s.resultsByVU == s0.resultsByVU[levels[k] := a.results.value];
      assert a.results.None? ==> s.resultsByVU == s0.resultsByVU;
      forall v ensures v in s.resultsByVU <==> exists i :: 0 <= i < |levels| && levels[i] == v && s.outcomes[i] == Stored {
        if v in s.resultsByVU && !(v == levels[k] && a.outcome == Stored) {
          assert v in s0.resultsByVU;
          var i :| 0 <= i < k && levels[..k][i] == v && s0.outcomes[i] == Stored;
          assert levels[i] == v && s.outcomes[i] == Stored;
        }
        if exists i :: 0 <= i < |levels| && levels[i] == v && s.outcomes[i] == Stored {
          var i :| 0 <= i < |levels| && levels[i] == v && s.outcomes[i] == Stored;
          if i < k {
            assert levels[..k][i] == v && s0.outcomes[i] == Stored;
          }
        }
      }
    }
  }

  /** The level loop of the driver: every level is attempted in order, and failures are skipped. */
  method RunSweep(levels: seq<nat>, run: nat -> ProbeRun, parse: string -> Option<Results>, disk0: map<string, string>)
    returns (resultsByVU: map<nat, Results>, outcomes: seq<LevelOutcome>)
    ensures Sweep(resultsByVU, SweepOf(levels, run, parse, disk0).disk, outcomes) == SweepOf(levels, run, parse, disk0)
    ensures |outcomes| == |levels|
  {
    resultsByVU := map[];
    outcomes := [];
    var disk := disk0;
    for k := 0 to |levels|
      invariant Sweep(resultsByVU, disk, outcomes) == SweepOf(levels[..k], run, parse, disk0)
    {
      var vus := levels[k];
      assert levels[..k + 1][..k] == levels[..k];
      var p := run(k);
      if p.summary.Some? {
        disk := disk[ProbeSummaryName(DecimalString(vus)) := p.summary.value];
      }
      var name := ArtifactName(vus);
      if !p.exitOk {
        outcomes := outcomes + [RunFailed];
      } else if name !in disk {
        outcomes := outcomes + [ArtifactMissing];
      } else {
        var parsed := parse(disk[name]);
        if parsed.None? {
          outcomes := outcomes + [ParseFailed];
        } else {
          resultsByVU := resultsByVU[vus := parsed.value];
          outcomes := outcomes + [Stored];
        }
      }
    }
    assert levels[..|levels|] == levels;
  }

  /** A table cell: `toFixed(2)` of a number, or "N/A". */
  datatype Cell = NA | Num(x: real)

  /** `getMetricValue`: "N/A" when the metric, its values or the field is missing. */
  function GetMetricValue(metric: Option<Metric>, field: string): (c: Cell)
    ensures c.NA? <==> metric.None? || metric.value.values.None? || field !in metric.value.values.value
    ensures c.Num? ==> c.x == metric.value.values.value[field]
  {
    if metric.Some? && metric.value.values.Some? && field in metric.value.values.value
    then Num(metric.value.values.value[field])
    else NA
  }

  datatype Row = Row(vus: nat, min: Cell, med: Cell, avg: Cell, p95: Cell, max: Cell)

  function RowOf(vus: nat, m: Metric): Row {
    Row(vus, GetMetricValue(Some(m), "min"), GetMetricValue(Some(m), "med"), GetMetricValue(Some(m), "avg"),
        GetMetricValue(Some(m), "p(95)"), GetMetricValue(Some(m), "max"))
  }

  /** The level has summary data and the data has the task's metric. */
  function HasTask(task: string, results: map<nat, Results>): nat -> bool {
    (vus: nat) => vus in results && task in results[vus]
  }

  /** The level has a p95 value for the task. */
  function HasP95(task: string, results: map<nat, Results>): nat -> bool {
    (vus: nat) => vus in results && task in results[vus] && GetMetricValue(Some(results[vus][task]), "p(95)").Num?
  }

  /** What the inner loop collects for a task: the table rows and the chart series. */
  datatype Scan = Scan(rows: seq<Row>, p95Values: seq<real>, validVUs: seq<nat>)

  function ScanLevels(task: string, levels: seq<nat>, results: map<nat, Results>): Scan
    decreases |levels|
  {
    if levels == [] then Scan([], [], [])
    else
      var s := ScanLevels(task, levels[..|levels| - 1], results);
      var vus := levels[|levels| - 1];
      if !HasTask(task, results)(vus) then s
      else
        var row := RowOf(vus, results[vus][task]);
        if row.p95.Num? then Scan(s.rows + [row], s.p95Values + [row.p95.x], s.validVUs + [vus])
        else Scan(s.rows + [row], s.p95Values, s.validVUs)
  }

  function RowLevels(rows: seq<Row>): (vs: seq<nat>)
    ensures |vs| == |rows| && forall i :: 0 <= i < |rows| ==> vs[i] == rows[i].vus
  {
    seq(|rows|, i requires 0 <= i < |rows| => rows[i].vus)
  }

  /**
    Rows appear exactly for the levels with data for the task, in level order; the chart series
    holds exactly the levels among them with a p95 value, with one p95 value per level.
  */
  lemma {:induction false} ScanSelects(task: string, levels: seq<nat>, results: map<nat, Results>)
    ensures var s := ScanLevels(task, levels, results);
      && RowLevels(s.rows) == Filter(levels, HasTask(task, results))
      && s.validVUs == Filter(levels, HasP95(task, results))
      && |s.p95Values| == |s.validVUs|
      && (forall i :: 0 <= i < |s.validVUs| ==> (s.validVUs[i] in results && task in results[s.validVUs[i]] &&
                                                 GetMetricValue(Some(results[s.validVUs[i]][task]), "p(95)") == Num(s.p95Values[i])))
      && (forall i :: 0 <= i < |s.rows| ==> (s.rows[i].vus in results && task in results[s.rows[i].vus] &&
                                             s.rows[i] == RowOf(s.rows[i].vus, results[s.rows[i].vus][task])))
    decreases |levels|
  {
    if levels != [] {
      var k := |levels| - 1;
      ScanSelects(task, levels[..k], results);
      assert levels == levels[..k] + [levels[k]];
      FilterAppend(levels[..k], levels[k], HasTask(task, results));
      FilterAppend(levels[..k], levels[k], HasP95(task, results));
      var s0 := ScanLevels(task, levels[..k], results);
      var s := ScanLevels(task, levels, results);
      if HasTask(task, results)(levels[k]) {
        assert RowLevels(s.rows) == RowLevels(s0.rows) + [levels[k]];
      }
    }
  }

  /** The chart series lists levels in their sweep order. */
  lemma SeriesIsSubsequence(task: string, levels: seq<nat>, results: map<nat, Results>)
    ensures IsSubsequence(ScanLevels(task, levels, results).validVUs, levels)
    ensures forall v :: v in ScanLevels(task, levels, results).validVUs <==> v in levels && HasP95(task, results)(v)
  {
    ScanSelects(task, levels, results);
    FilterIsSubsequence(levels, HasP95(task, results));
  }

  /** A level that ran but whose summary lacks the task's metric gets no row and no chart point. */
  lemma LevelWithoutTaskIsSkipped(task: string, levels: seq<nat>, results: map<nat, Results>, vus: nat)
    requires vus in results && task !in results[vus]
    ensures ScanLevels(task, levels + [vus], results) == ScanLevels(task, levels, results)
  {
    assert (levels + [vus])[..|levels|] == levels;
  }

  /** One page of the report: the task's rows and, when the series is not empty, its chart. */
  datatype Page = Page(task: string, rows: seq<Row>, p95Values: seq<real>, validVUs: seq<nat>, chart: bool)

  function PageOf(task: string, levels: seq<nat>, results: map<nat, Results>): (p: Page)
    ensures p.task == task && (p.chart <==> |p.p95Values| > 0)
    ensures var s := ScanLevels(task, levels, results);
      p.rows == s.rows && p.p95Values == s.p95Values && p.validVUs == s.validVUs
  {
    var s := ScanLevels(task, levels, results);
    Page(task, s.rows, s.p95Values, s.validVUs, |s.p95Values| > 0)
  }

  function Report(tasks: seq<string>, levels: seq<nat>, results: map<nat, Results>): (pages: seq<Page>)
    ensures |pages| == |tasks|
    ensures forall i :: 0 <= i < |tasks| ==> pages[i] == PageOf(tasks[i], levels, results)
  {
    seq(|tasks|, i requires 0 <= i < |tasks| => PageOf(tasks[i], levels, results))
  }

  /** The report loop of the driver: a page per task, an inner loop over the levels. */
  method CompileReport(tasks: seq<string>, levels: seq<nat>, resultsByVU: map<nat, Results>)
    returns (pages: seq<Page>)
    ensures pages == Report(tasks, levels, resultsByVU)
  {
    pages := [];
    for t := 0 to |tasks|
      invariant pages == Report(tasks[..t], levels, resultsByVU)
    {
      var task := tasks[t];
      var rows: seq<Row> := [];
      var p95Values: seq<real> := [];
      var validVUs: seq<nat> := [];
      for j := 0 to |levels|
        invariant Scan(rows, p95Values, validVUs) == ScanLevels(task, levels[..j], resultsByVU)
      {
        var vus := levels[j];
        assert levels[..j + 1][..j] == levels[..j];
        if !(vus in resultsByVU && task in resultsByVU[vus]) {
          continue;
        }
        var metric := resultsByVU[vus][task];
        var p95 := GetMetricValue(Some(metric), "p(95)");
        if p95.Num? {
          p95Values := p95Values + [p95.x];
          validVUs := validVUs + [vus];
        }
        rows := rows + [Row(vus, GetMetricValue(Some(metric), "min"), GetMetricValue(Some(metric), "med"),
                            GetMetricValue(Some(metric), "avg"), p95, GetMetricValue(Some(metric), "max"))];
      }
      assert levels[..|levels|] == levels;
      pages := pages + [Page(task, rows, p95Values, validVUs, |p95Values| > 0)];
      assert tasks[..t + 1] == tasks[..t] + [task];
    }
    assert tasks[..|tasks|] == tasks;
  }
}
