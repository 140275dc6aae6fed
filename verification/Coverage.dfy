/**
 From a target list to one report per engine: batching (internal/exec/batch.go), shielding
 (internal/adapter/safe.go), running (`runEngineBatches` in internal/cycle/cycle.go) and merging
 (`mergeReports` in internal/cycle/persist.go). An engine that did not look at everything abstains.
 */
module Coverage {
  import opened Optional
  import opened Schema
  import opened Text

  // ---- one shielded call ----

  /** What an adapter's Scan and Parse may do: anything. An absent status is the empty string. */
  datatype ScanOutcome = ScanPanics | ScanFails(failStatus: Option<Status>, error: string) | Scanned(status: Option<Status>)

  datatype ParseOutcome = ParsePanics | ParseFails(error: string) | Parsed(draft: Draft)

  /** A report as the adapter hands it over: engine and status may have been left empty. */
  datatype Draft = Draft(engine: string, status: Option<Status>, error: string, findings: seq<Finding>, cleanFiles: seq<string>)

  datatype Attempt = Attempt(scan: ScanOutcome, parse: ParseOutcome)

  /** The call completed, its output was parsed, and the report it gives satisfies the schema. */
  predicate Succeeded(slug: string, a: Attempt) {
    && a.scan.Scanned? && (a.scan.status.None? || CountsAsVote(a.scan.status.value))
    && a.parse.Parsed? && ValidReport(FillIn(slug, a.parse.draft))
  }

  function FillIn(slug: string, d: Draft): Report {
    Report(if d.engine == "" then slug else d.engine,
           if d.status.None? then Completed else d.status.value,
           d.error, d.findings, d.cleanFiles)
  }

  /** `SafeScanAndParse`: any bad outcome is a report that abstains. */
  function SafeScanAndParse(slug: string, a: Attempt): (r: Report)
    ensures !Abstains(r) ==> Succeeded(slug, a) && r == FillIn(slug, a.parse.draft)
    ensures Abstains(r) <==> !Succeeded(slug, a) || FillIn(slug, a.parse.draft).status != Completed
    ensures !Succeeded(slug, a) ==> r.findings == [] && r.cleanFiles == []
  {
    match a.scan
    case ScanPanics => FailedReport(slug, Failed, "panic")
    case ScanFails(status, error) => FailedReport(slug, if status.None? then Failed else status.value, error)
    case Scanned(status) =>
      if status.Some? && !CountsAsVote(status.value) then FailedReport(slug, status.value, "the engine did not complete")
      else match a.parse
        case ParsePanics => FailedReport(slug, Failed, "panic")
        case ParseFails(error) => FailedReport(slug, Failed, error)
        case Parsed(draft) =>
          var report := FillIn(slug, draft);
          if ValidReport(report) then report else FailedReport(slug, Failed, "the report does not satisfy the schema")
  }

  // ---- batching ----

  /** What the environment decides: the context's state before each batch and during each pause. */
  datatype Context = Context(doneBefore: nat -> bool, doneInPause: nat -> bool)

  function Min(a: nat, b: nat): nat {
    if a < b then a else b
  }

  /** The reports of the batches an engine was given, and whether a cancellation cut them short. */
  datatype Run = Run(batches: seq<seq<string>>, partials: seq<Report>, cancelled: bool)

  predicate BatchesFit(batches: seq<seq<string>>, size: nat) {
    forall i :: 0 <= i < |batches| ==> 0 < |batches[i]| <= size
  }

  /** The context was done before the batch that was not given, or in the pause after the last one given, and not sooner. */
  ghost predicate CutShort(ctx: Context, pause: bool, n: nat) {
    && NotDone(ctx, pause, n) && (ctx.doneBefore(n) || (n > 0 && pause && ctx.doneInPause(n - 1)))
  }

  /** The context let `n` batches be given. */
  ghost predicate NotDone(ctx: Context, pause: bool, n: nat) {
    && (forall k :: 0 <= k < n ==> !ctx.doneBefore(k))
    && (forall k :: 0 <= k < n - 1 ==> !(pause && ctx.doneInPause(k)))
  }

  /** The batches given so far are the first `n` targets, each with the report of its call. */
  ghost predicate Given(slug: string, attempts: nat -> Attempt, targets: seq<string>, run: Run, size: nat, n: nat) {
    && n <= |targets| && |run.partials| == |run.batches| && Concat(run.batches) == targets[..n]
    && (forall k :: 0 <= k < |run.batches| ==> run.partials[k] == SafeScanAndParse(slug, attempts(k)))
    && BatchesFit(run.batches, size)
  }

  lemma GiveOne(slug: string, attempts: nat -> Attempt, targets: seq<string>, run: Run, size: nat, n: nat, end: nat)
    requires Given(slug, attempts, targets, run, size, n) && n < end <= |targets| && end - n <= size
    ensures Given(slug, attempts, targets,
      Run(run.batches + [targets[n..end]], run.partials + [SafeScanAndParse(slug, attempts(|run.batches|))], false), size, end)
  {
    hide SafeScanAndParse;
    ConcatAppend(run.batches, targets[n..end]);
    assert targets[..end] == targets[..n] + targets[n..end];
  }

  /** `Batcher.Each` over the adapter calls: `attempts(i)` is what the adapter does with batch `i`. */
  method EachBatch(slug: string, attempts: nat -> Attempt, targets: seq<string>, size: int, pause: bool, ctx: Context)
    returns (run: Run)
    ensures |run.partials| == |run.batches|
    ensures forall i :: 0 <= i < |run.batches| ==> run.partials[i] == SafeScanAndParse(slug, attempts(i))
    ensures BatchesFit(run.batches, if size <= 0 then 200 else size)
    ensures Concat(run.batches) <= targets
    ensures if run.cancelled then Concat(run.batches) != targets && CutShort(ctx, pause, |run.batches|)
            else Concat(run.batches) == targets && NotDone(ctx, pause, |run.batches|)
  {
    hide SafeScanAndParse, Concat, BatchesFit;
    var step: nat := if size <= 0 then 200 else size;
    run := Run([], [], false);
    NoneGiven(slug, attempts, targets, step);
    var i := 0;
    while i < |targets|
      invariant 0 <= i && !run.cancelled
      invariant Given(slug, attempts, targets, run, step, Min(i, |targets|))
      invariant NotDone(ctx, pause, |run.batches|)
      invariant i < |targets| && pause && run.batches != [] ==> !ctx.doneInPause(|run.batches| - 1)
    {
      var n := |run.batches|;
      if ctx.doneBefore(n) { return run.(cancelled := true); }
      var end := Min(i + step, |targets|);
      GiveOne(slug, attempts, targets, run, step, i, end);
      run := Run(run.batches + [targets[i..end]], run.partials + [SafeScanAndParse(slug, attempts(n))], false);
      if end < |targets| && pause && ctx.doneInPause(n) { return run.(cancelled := true); }
      i := i + step;
    }
    assert targets[..|targets|] == targets;
  }

  lemma NoneGiven(slug: string, attempts: nat -> Attempt, targets: seq<string>, size: nat)
    ensures Given(slug, attempts, targets, Run([], [], false), size, 0)
  {
  }

  /** `runEngineBatches`: an engine that cannot restrict itself to a list is called once with all of it. */
  method RunEngineBatches(slug: string, scopeAware: bool, attempts: nat -> Attempt, targets: seq<string>, size: int,
                          pause: bool, ctx: Context) returns (run: Run)
    ensures Ran(slug, attempts, targets, run)
    ensures run.cancelled ==> scopeAware && CutShort(ctx, pause, |run.batches|)
    ensures !run.cancelled && scopeAware ==> NotDone(ctx, pause, |run.batches|)
  {
    if !scopeAware {
      run := Run([targets], [SafeScanAndParse(slug, attempts(0))], false);
      assert Concat([targets]) == targets + Concat([targets][1..]);
      return;
    }
    run := EachBatch(slug, attempts, targets, size, pause, ctx);
    if run.cancelled {
      run := run.(partials := run.partials + [FailedReport(slug, Killed, "cancelled")]);
    }
  }

  /** What a run of one engine leaves: one report per batch, and one more when it was cancelled. */
  predicate Ran(slug: string, attempts: nat -> Attempt, targets: seq<string>, run: Run) {
    && |run.partials| == |run.batches| + (if run.cancelled then 1 else 0)
    && (forall i :: 0 <= i < |run.batches| ==> run.partials[i] == SafeScanAndParse(slug, attempts(i)))
    && (run.cancelled ==> run.partials[|run.batches|] == FailedReport(slug, Killed, "cancelled"))
    && Concat(run.batches) <= targets
    && (!run.cancelled ==> Concat(run.batches) == targets)
  }

  // ---- merging ----

  function Severity(s: Status): nat {
    match s
    case Completed => 0
    case Partial => 1
    case Timeout => 2
    case Killed => 3
    case Failed => 4
  }

  function WorstStatus(a: Status, b: Status): Status {
    if Severity(b) > Severity(a) then b else a
  }

  predicate Occurs(s: Status, partials: seq<Report>) {
    exists i :: 0 <= i < |partials| && partials[i].status == s
  }

  /** The most severe status of a list, whatever its order: the only one as severe as any other. */
  predicate IsWorst(s: Status, partials: seq<Report>) {
    && (s == Completed || Occurs(s, partials))
    && forall i :: 0 <= i < |partials| ==> Severity(partials[i].status) <= Severity(s)
  }

  function AllFindings(partials: seq<Report>): seq<Finding> {
    if partials == [] then []
    else AllFindings(partials[..|partials| - 1]) + partials[|partials| - 1].findings
  }

  function AllCleanFiles(partials: seq<Report>): seq<string> {
    if partials == [] then []
    else AllCleanFiles(partials[..|partials| - 1]) + partials[|partials| - 1].cleanFiles
  }

  /** `mergeReports`. */
  method MergeReports(slug: string, partials: seq<Report>) returns (out: Report)
    ensures Merged(slug, partials, out)
  {
    out := Report(slug, Completed, "", [], []);
    if partials == [] {
      return out.(status := Failed, error := "the engine produced no report at all");
    }
    var i := 0;
    while i < |partials|
      invariant 0 <= i <= |partials|
      invariant out.engine == slug && out.findings == AllFindings(partials[..i]) && out.cleanFiles == AllCleanFiles(partials[..i])
      invariant IsWorst(out.status, partials[..i])
    {
      var p := partials[i];
      assert partials[..i + 1][..i] == partials[..i] && partials[..i + 1][i] == p;
      ghost var before := out.status;
      out := out.(findings := out.findings + p.findings, cleanFiles := out.cleanFiles + p.cleanFiles);
      if Abstains(p) {
        out := out.(status := WorstStatus(out.status, p.status));
      }
      assert forall k :: 0 <= k < i ==> partials[..i + 1][k] == partials[..i][k];
      i := i + 1;
    }
    assert partials[..|partials|] == partials;
    if Abstains(out) {
      out := out.(error := "batches failed", findings := [], cleanFiles := []);
    }
  }

  /** The merge of an engine's partial reports. */
  predicate Merged(slug: string, partials: seq<Report>, out: Report) {
    && out.engine == slug
    && (partials == [] ==> out.status == Failed)
    && (partials != [] ==> IsWorst(out.status, partials))
    && (Abstains(out) ==> out.findings == [] && out.cleanFiles == [] && out.error != "")
    && (!Abstains(out) ==> out.findings == AllFindings(partials) && out.cleanFiles == AllCleanFiles(partials))
  }

  /** The merged status depends only on which statuses occur, not on the order of the batches. */
  lemma MergedStatusUnordered(slug: string, a: seq<Report>, b: seq<Report>, x: Report, y: Report)
    requires Merged(slug, a, x) && Merged(slug, b, y)
    requires forall s :: Occurs(s, a) <==> Occurs(s, b)
    ensures x.status == y.status
  {
    assert a != [] ==> Occurs(a[0].status, a);
    assert b != [] ==> Occurs(b[0].status, b);
    if a != [] {
      WorstIsAsSevere(x.status, a, y.status, b);
      WorstIsAsSevere(y.status, b, x.status, a);
    }
  }

  lemma WorstIsAsSevere(s: Status, a: seq<Report>, t: Status, b: seq<Report>)
    requires IsWorst(s, a) && IsWorst(t, b)
    requires forall u :: Occurs(u, a) ==> Occurs(u, b)
    ensures Severity(s) <= Severity(t)
  {
    if s != Completed {
      assert Occurs(s, a);
    }
  }

  /**
   Full coverage behind a vote: if the merged report of a run counts as a vote, then the batches
   the engine was given make up the target list exactly, and every one of the calls completed,
   was parsed, satisfied the schema and claimed completion. Conversely, when all of that happened
   to a list that was not empty, the merged report counts as a vote.
   */
  lemma VoteMeansFullCoverage(slug: string, attempts: nat -> Attempt, targets: seq<string>, run: Run, out: Report)
    requires Ran(slug, attempts, targets, run) && Merged(slug, run.partials, out)
    ensures !Abstains(out) ==>
      && !run.cancelled && run.batches != [] && Concat(run.batches) == targets
      && forall i :: 0 <= i < |run.batches| ==>
           Succeeded(slug, attempts(i)) && run.partials[i] == FillIn(slug, attempts(i).parse.draft)
           && run.partials[i].status == Completed
    ensures !run.cancelled && run.batches != []
      && (forall i :: 0 <= i < |run.batches| ==> Succeeded(slug, attempts(i)) && FillIn(slug, attempts(i).parse.draft).status == Completed)
      ==> !Abstains(out)
  {
    if !Abstains(out) {
      forall i | 0 <= i < |run.partials| ensures run.partials[i].status == Completed {
        assert Severity(run.partials[i].status) <= Severity(out.status);
      }
    } else if run.partials != [] {
      var i :| 0 <= i < |run.partials| && run.partials[i].status == out.status;
    }
  }

  lemma {:induction false} FindingOrigin(partials: seq<Report>, f: Finding) returns (i: nat)
    requires f in AllFindings(partials)
    ensures i < |partials| && f in partials[i].findings
  {
    var n := |partials| - 1;
    if f in partials[n].findings {
      i := n;
    } else {
      i := FindingOrigin(partials[..n], f);
    }
  }

  lemma {:induction false} FindingKept(partials: seq<Report>, i: nat, f: Finding)
    requires i < |partials| && f in partials[i].findings
    ensures f in AllFindings(partials)
  {
    var n := |partials| - 1;
    if i < n { FindingKept(partials[..n], i, f); }
  }

  /**
   The merge keeps the engine name each finding came with. All findings of a merged report carry
   its slug exactly when every partial report with findings carried it.
   */
  lemma LabelsExactly(slug: string, partials: seq<Report>, out: Report)
    requires Merged(slug, partials, out) && !Abstains(out)
    requires forall i :: 0 <= i < |partials| ==> ValidReport(partials[i])
    ensures (forall f :: f in out.findings ==> f.engine == slug)
       <==> forall i :: 0 <= i < |partials| && partials[i].findings != [] ==> partials[i].engine == slug
  {
    if forall f :: f in out.findings ==> f.engine == slug {
      forall i | 0 <= i < |partials| && partials[i].findings != [] ensures partials[i].engine == slug {
        FindingKept(partials, i, partials[i].findings[0]);
      }
    }
    if forall i :: 0 <= i < |partials| && partials[i].findings != [] ==> partials[i].engine == slug {
      forall f | f in out.findings ensures f.engine == slug {
        var i := FindingOrigin(partials, f);
        var k :| 0 <= k < |partials[i].findings| && partials[i].findings[k] == f;
      }
    }
  }

  /** Adapters that put their own slug, or none, on their reports. */
  ghost predicate Honest(slug: string, attempts: nat -> Attempt) {
    forall i :: attempts(i).parse.Parsed? ==> attempts(i).parse.draft.engine in {"", slug}
  }

  /** Under an honest adapter every finding of a merged report carries the engine of the report. */
  lemma FindingsCarryTheirEngine(slug: string, attempts: nat -> Attempt, targets: seq<string>, run: Run, out: Report)
    requires Ran(slug, attempts, targets, run) && Merged(slug, run.partials, out) && Honest(slug, attempts)
    ensures forall f :: f in out.findings ==> f.engine == out.engine && ValidFinding(f)
  {
    forall f | f in out.findings ensures f.engine == out.engine && ValidFinding(f) {
      VoteMeansFullCoverage(slug, attempts, targets, run, out);
      var i := FindingOrigin(run.partials, f);
      var k :| 0 <= k < |run.partials[i].findings| && run.partials[i].findings[k] == f;
      assert ValidReport(FillIn(slug, attempts(i).parse.draft));
    }
  }

  // ---- the engines of one cycle ----

  datatype EngineOutcome = EngineOutcome(slug: string, available: bool, status: Status)

  /** `AnyEngineVoted`. */
  predicate AnyEngineVoted(outcomes: seq<EngineOutcome>) {
    exists i :: 0 <= i < |outcomes| && outcomes[i].available && CountsAsVote(outcomes[i].status)
  }

  /** An engine of the cycle: whether its probe succeeds, and how its adapter behaves. */
  datatype Engine = Engine(slug: string, available: bool, scopeAware: bool, attempts: nat -> Attempt, ctx: Context)

  /** How one report of a cycle came about: an empty target list, or a run and its merge. */
  ghost predicate ReportOf(e: Engine, targets: seq<string>, r: Report) {
    if targets == [] then r == Report(e.slug, Completed, "", [], [])
    else exists run :: Ran(e.slug, e.attempts, targets, run) && Merged(e.slug, run.partials, r)
  }

  /** The reports of a cycle, in the order of the engines: one from each that is available, and no other. */
  ghost predicate ReportsOf(engines: seq<Engine>, targets: seq<string>, reports: seq<Report>, origin: seq<nat>) {
    && |origin| == |reports|
    && (forall k :: 0 <= k < |reports| ==>
          origin[k] < |engines| && engines[origin[k]].available && ReportOf(engines[origin[k]], targets, reports[k]))
    && (forall j, k :: 0 <= j < k < |origin| ==> origin[j] < origin[k])
    && (forall e :: 0 <= e < |engines| && engines[e].available ==> e in origin)
  }

  lemma NoReport(engines: seq<Engine>, i: nat, targets: seq<string>, reports: seq<Report>, origin: seq<nat>)
    requires i < |engines| && !engines[i].available && ReportsOf(engines[..i], targets, reports, origin)
    ensures ReportsOf(engines[..i + 1], targets, reports, origin)
  {
    hide ReportOf;
    forall e | 0 <= e < i + 1 && engines[e].available ensures e in origin { assert engines[..i][e] == engines[e]; }
  }

  lemma OneMoreReport(engines: seq<Engine>, i: nat, targets: seq<string>, reports: seq<Report>, origin: seq<nat>, r: Report)
    requires i < |engines| && engines[i].available && ReportsOf(engines[..i], targets, reports, origin)
    requires ReportOf(engines[i], targets, r)
    ensures ReportsOf(engines[..i + 1], targets, reports + [r], origin + [i])
  {
    hide ReportOf;
    var longer := origin + [i];
    forall e | 0 <= e < i + 1 && engines[e].available ensures e in longer {
      if e < i { assert engines[..i][e] == engines[e] && e in origin; } else { assert longer[|origin|] == i; }
    }
    forall k | 0 <= k < |reports + [r]|
      ensures longer[k] < i + 1 && engines[longer[k]].available && ReportOf(engines[longer[k]], targets, (reports + [r])[k])
    {
      if k < |reports| { assert engines[..i][origin[k]] == engines[longer[k]]; }
    }
  }

  predicate SomeReportVotes(reports: seq<Report>) {
    exists k :: 0 <= k < |reports| && !Abstains(reports[k])
  }

  lemma VotesAppend(reports: seq<Report>, r: Report)
    ensures SomeReportVotes(reports + [r]) <==> SomeReportVotes(reports) || !Abstains(r)
  {
    var all := reports + [r];
    assert all[|reports|] == r;
    assert forall k :: 0 <= k < |reports| ==> all[k] == reports[k];
  }

  /** `runEngines`, over the enabled engines: unavailable ones leave an outcome and no report. */
  method RunEngines(engines: seq<Engine>, targets: seq<string>, size: int, pause: bool)
    returns (reports: seq<Report>, outcomes: seq<EngineOutcome>, ghost origin: seq<nat>)
    ensures ReportsOf(engines, targets, reports, origin) && |outcomes| == |engines|
    ensures forall e :: 0 <= e < |engines| ==> outcomes[e].slug == engines[e].slug && outcomes[e].available == engines[e].available
    ensures AnyEngineVoted(outcomes) <==> SomeReportVotes(reports)
  {
    hide Ran, Merged, ReportsOf, SomeReportVotes, AnyEngineVoted;
    reports, outcomes, origin := [], [], [];
    NoEngines(engines, targets);
    var i := 0;
    while i < |engines|
      invariant 0 <= i <= |engines| && |outcomes| == i
      invariant ReportsOf(engines[..i], targets, reports, origin)
      invariant forall e :: 0 <= e < i ==> outcomes[e].slug == engines[e].slug && outcomes[e].available == engines[e].available
      invariant AnyEngineVoted(outcomes) <==> SomeReportVotes(reports)
    {
      var e := engines[i];
      if !e.available {
        NoReport(engines, i, targets, reports, origin);
        VotedAppend(outcomes, EngineOutcome(e.slug, false, Failed));
        outcomes := outcomes + [EngineOutcome(e.slug, false, Failed)];
      } else {
        var r := Report(e.slug, Completed, "", [], []);
        if targets != [] {
          var run := RunEngineBatches(e.slug, e.scopeAware, e.attempts, targets, size, pause, e.ctx);
          r := MergeReports(e.slug, run.partials);
        }
        OneMoreReport(engines, i, targets, reports, origin, r);
        VotesAppend(reports, r);
        VotedAppend(outcomes, EngineOutcome(e.slug, true, r.status));
        reports, origin := reports + [r], origin + [i];
        outcomes := outcomes + [EngineOutcome(e.slug, true, r.status)];
      }
      i := i + 1;
    }
    assert engines[..|engines|] == engines;
  }

  lemma NoEngines(engines: seq<Engine>, targets: seq<string>)
    ensures ReportsOf(engines[..0], targets, [], []) && !AnyEngineVoted([]) && !SomeReportVotes([])
  {
  }

  lemma VotedAppend(outcomes: seq<EngineOutcome>, o: EngineOutcome)
    ensures AnyEngineVoted(outcomes + [o]) <==> AnyEngineVoted(outcomes) || (o.available && CountsAsVote(o.status))
  {
    var all := outcomes + [o];
    assert all[|outcomes|] == o;
    assert forall i :: 0 <= i < |outcomes| ==> all[i] == outcomes[i];
  }
}
