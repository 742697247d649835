/** The sweep of `runTestsMonkey` and `runTestsTBB` (main.cpp), written once for
    both maps: reader counts 1 to 15 in increasing order, `NUM_EXP` trials for
    each, an accumulator of integer milliseconds reset for each count, and one
    report entry per count appended to the line `x = 2:16\ny = [ ... ]`. */
module Sweep {
  import opened RandomStrings
  import opened Workloads
  import opened Trials

  /** The first and the last reader count of the sweep. */
  const MinReaders: nat := 1
  const MaxReaders: nat := 15

  /** The text the report line starts and ends with. */
  const ReportHeader: string := "x = 2:16\ny = ["
  const ReportFooter: string := "]"

  /** One report entry: the reader count, the accumulated milliseconds of its
      trials and the number of trials. The source prints the quotient
      `totalMs / (trials * 1000.0f)`; that floating-point text is made by the
      caller-supplied `show` function below. */
  datatype Entry = Entry(readers: nat, totalMs: int, trials: int)

  /** Sum of the elapsed times of these trials. */
  function TotalMs(obs: seq<Observation>): int {
    if |obs| == 0 then 0 else TotalMs(obs[..|obs| - 1]) + obs[|obs| - 1].elapsedMs
  }

  /** The entries of the report, each followed by a space: at least one
      character per entry, and a trailing space once there is an entry. */
  function Body(report: seq<Entry>, show: Entry -> string): (b: string)
    ensures |b| >= |report|
    ensures |report| > 0 ==> b[|b| - 1] == ' '
  {
    if |report| == 0 then ""
    else Body(report[..|report| - 1], show) + show(report[|report| - 1]) + " "
  }

  /** The whole report line: it starts with the range descriptor `x = 2:16` and
      the opening of the value list, and ends with the closing bracket. */
  function Render(report: seq<Entry>, show: Entry -> string): (line: string)
    ensures |line| > |ReportHeader|
    ensures line[..|ReportHeader|] == ReportHeader
    ensures line[|line| - 1] == ']'
  {
    var body := Body(report, show);
    assert ReportHeader + body + ReportFooter == ReportHeader + (body + ReportFooter);
    ReportHeader + body + ReportFooter
  }

  /** The inputs cover every trial of the sweep: one row per reader count, a
      sufficient observation for each of its `NUM_EXP` trials. */
  predicate Fed(oracle: seq<seq<Observation>>, numExp: int, iter: int) {
    && |oracle| == MaxReaders
    && forall k :: 0 <= k < MaxReaders ==>
         && Width(numExp) <= |oracle[k]|
         && forall j :: 0 <= j < Width(numExp) ==> Sufficient(oracle[k][j], k + 1, iter)
  }

  /** The entry for reader count `k + 1`: the accumulator holds the sum of that
      count's trials and nothing from any other count. */
  function EntryFor(oracle: seq<seq<Observation>>, numExp: int, k: nat): Entry
    requires k < |oracle| && Width(numExp) <= |oracle[k]|
  {
    Entry(k + 1, TotalMs(oracle[k][..Width(numExp)]), numExp)
  }

  /** `done` are the trials of one reader count, one per observation of `row`, in order. */
  predicate IsRowOf(done: seq<Trial>, impl: MapImpl, readers: nat, numExp: int, iter: int, row: seq<Observation>)
    requires Width(numExp) <= |row|
    requires forall j :: 0 <= j < Width(numExp) ==> Sufficient(row[j], readers, iter)
  {
    && |done| == Width(numExp)
    && forall j :: 0 <= j < Width(numExp) ==> IsTrialOf(done[j], impl, readers, iter, row[j])
  }

  /** The trials of one reader count: the accumulator starts at zero, and the
      `NUM_EXP` trials run one after another, each adding its elapsed time. */
  method RunReaderCount(impl: MapImpl, numThreads: nat, numExp: int, iter: int, row: seq<Observation>)
    returns (done: seq<Trial>, totalTime: int)
    requires Width(numExp) <= |row|
    requires forall j :: 0 <= j < Width(numExp) ==> Sufficient(row[j], numThreads, iter)
    ensures IsRowOf(done, impl, numThreads, numExp, iter, row)
    ensures totalTime == TotalMs(row[..Width(numExp)])
  {
    totalTime := 0;
    done := [];
    var experiment := 0;
    while experiment < numExp
      invariant 0 <= experiment <= Width(numExp)
      invariant |done| == experiment
      invariant totalTime == TotalMs(row[..experiment])
      invariant forall j :: 0 <= j < experiment ==> IsTrialOf(done[j], impl, numThreads, iter, row[j])
    {
      var t := RunTrial(impl, numThreads, iter, row[experiment]);
      assert row[..experiment + 1][..experiment] == row[..experiment];
      totalTime := totalTime + row[experiment].elapsedMs;
      done := done + [t];
      experiment := experiment + 1;
    }
  }

  /** The first `n` reader counts are done: their trials and report entries are
      in place, in increasing order of reader count. */
  predicate SweptUpTo(trials: seq<seq<Trial>>, report: seq<Entry>, n: nat,
                      impl: MapImpl, numExp: int, iter: int, oracle: seq<seq<Observation>>)
    requires Fed(oracle, numExp, iter) && n <= MaxReaders
  {
    && |trials| == |report| == n
    && forall k :: 0 <= k < n ==>
         report[k] == EntryFor(oracle, numExp, k) && IsRowOf(trials[k], impl, k + 1, numExp, iter, oracle[k])
  }

  lemma SweptSnoc(trials: seq<seq<Trial>>, report: seq<Entry>, n: nat,
                  impl: MapImpl, numExp: int, iter: int, oracle: seq<seq<Observation>>,
                  done: seq<Trial>, entry: Entry)
    requires Fed(oracle, numExp, iter) && n < MaxReaders
    requires SweptUpTo(trials, report, n, impl, numExp, iter, oracle)
    requires entry == EntryFor(oracle, numExp, n) && IsRowOf(done, impl, n + 1, numExp, iter, oracle[n])
    ensures SweptUpTo(trials + [done], report + [entry], n + 1, impl, numExp, iter, oracle)
  {
    var trials', report' := trials + [done], report + [entry];
    forall k | 0 <= k < n + 1
      ensures report'[k] == EntryFor(oracle, numExp, k) && IsRowOf(trials'[k], impl, k + 1, numExp, iter, oracle[k])
    {
      if k < n {
        assert report'[k] == report[k] && trials'[k] == trials[k];
      }
    }
  }

  /** The sweep for one map. `trials[k]` holds the trials with `k + 1` getters,
      in the order they ran; `report[k]` is the entry for `k + 1` getters;
      `output` is the line written to the report file. */
  method RunSweep(impl: MapImpl, numExp: int, iter: int, oracle: seq<seq<Observation>>, show: Entry -> string)
    returns (trials: seq<seq<Trial>>, report: seq<Entry>, output: string)
    requires Fed(oracle, numExp, iter)
    ensures SweptUpTo(trials, report, MaxReaders, impl, numExp, iter, oracle)
    ensures output == Render(report, show)
  {
    trials, report := [], [];
    output := ReportHeader;
    var numThreads := MinReaders;
    while numThreads <= MaxReaders
      invariant MinReaders <= numThreads <= MaxReaders + 1
      invariant SweptUpTo(trials, report, numThreads - 1, impl, numExp, iter, oracle)
      invariant output == ReportHeader + Body(report, show)
    {
      var done, totalTime := RunReaderCount(impl, numThreads, numExp, iter, oracle[numThreads - 1]);
      var entry := Entry(numThreads, totalTime, numExp);
      SweptSnoc(trials, report, numThreads - 1, impl, numExp, iter, oracle, done, entry);
      BodySnoc(report, entry, show);
      AppendAssoc(ReportHeader, Body(report, show), show(entry), " ");
      output := output + show(entry) + " ";
      report := report + [entry];
      trials := trials + [done];
      numThreads := numThreads + 1;
    }
    output := output + ReportFooter;
  }

  // ---------------------------------------------------------------- lemmas

  lemma AppendAssoc(a: string, b: string, c: string, d: string)
    ensures a + b + c + d == a + (b + c + d)
  {
  }

  lemma BodySnoc(report: seq<Entry>, e: Entry, show: Entry -> string)
    ensures Body(report + [e], show) == Body(report, show) + show(e) + " "
  {
    assert (report + [e])[..|report|] == report;
  }

  /** Occurrences of `c` in `s`. */
  function Count(c: char, s: string): nat {
    if |s| == 0 then 0 else Count(c, s[..|s| - 1]) + (if s[|s| - 1] == c then 1 else 0)
  }

  lemma {:induction false} CountAppend(c: char, a: string, b: string)
    ensures Count(c, a + b) == Count(c, a) + Count(c, b)
  {
    if |b| > 0 {
      CountAppend(c, a, b[..|b| - 1]);
      assert (a + b)[..|a + b| - 1] == a + b[..|b| - 1];
    } else {
      assert a + b == a;
    }
  }

  /** When no entry's text contains a space, the body holds exactly one space per
      entry: the report's value list has as many space-separated items as the
      report has entries. */
  lemma {:induction false} BodySpaces(report: seq<Entry>, show: Entry -> string)
    requires forall e :: ' ' !in show(e)
    ensures Count(' ', Body(report, show)) == |report|
  {
    if |report| > 0 {
      var last := report[|report| - 1];
      BodySpaces(report[..|report| - 1], show);
      CountAppend(' ', Body(report[..|report| - 1], show) + show(last), " ");
      CountAppend(' ', Body(report[..|report| - 1], show), show(last));
      CountAbsent(' ', show(last));
      assert " "[..0] == "";
    }
  }

  lemma {:induction false} CountAbsent(c: char, s: string)
    requires c !in s
    ensures Count(c, s) == 0
  {
    if |s| > 0 {
      CountAbsent(c, s[..|s| - 1]);
    }
  }

  /** A complete sweep reports on 15 reader counts, 1 to 15 in strictly
      increasing order; the trial with `r` getters runs `r + 1` threads, so the
      thread totals are 2 to 16, the range the report line announces. */
  lemma {:induction false} SweepCoversRange(trials: seq<seq<Trial>>, report: seq<Entry>,
                                            impl: MapImpl, numExp: int, iter: int, oracle: seq<seq<Observation>>)
    requires Fed(oracle, numExp, iter)
    requires SweptUpTo(trials, report, MaxReaders, impl, numExp, iter, oracle)
    ensures |report| == MaxReaders
    ensures forall k :: 0 <= k < |report| ==> report[k].trials == numExp && |trials[k]| == Width(numExp)
    ensures report[0].readers == MinReaders && report[|report| - 1].readers == MaxReaders
    ensures forall k, l :: 0 <= k < l < |report| ==> report[k].readers < report[l].readers
    ensures forall k :: 0 <= k < |report| ==> 2 <= |Threads(report[k].readers)| <= 16
  {
  }

  /** When every trial of a count took between `lo` and `hi` milliseconds, the
      accumulated total lies between `n * lo` and `n * hi` for `n` trials: the
      reported average lies between the fastest and the slowest trial. */
  lemma {:induction false} TotalMsBetween(obs: seq<Observation>, lo: int, hi: int)
    requires forall i :: 0 <= i < |obs| ==> lo <= obs[i].elapsedMs <= hi
    ensures |obs| * lo <= TotalMs(obs) <= |obs| * hi
  {
    if |obs| > 0 {
      var n := |obs| - 1;
      TotalMsBetween(obs[..n], lo, hi);
      assert |obs| * lo == n * lo + lo;
      assert |obs| * hi == n * hi + hi;
    }
  }
}
