/**
 What the action loop makes of one verdict (`act` and `quarantineOne` in internal/cycle/persist.go),
 its single gate (internal/config/defaults.go), and what a whole cycle guarantees before it moves a
 file. The loop itself, with the vault it calls, is in `WholeCycle`.
 */
module Acting {
  import opened Calendar
  import opened Schema
  import opened Text
  import opened Verdicts
  import opened Consolidation
  import opened Coverage
  import PathMatch
  import Reach

  /** The settings that decide whether anything may be moved without being asked. */
  datatype General = General(observation: bool, graceDays: int, firstRun: Instant)

  predicate InGracePeriod(g: General, now: Instant) {
    g.graceDays > 0 && (g.firstRun == ZERO || now < g.firstRun + g.graceDays * DAY)
  }

  predicate AutomaticActionAllowed(g: General, now: Instant) {
    !g.observation && !InGracePeriod(g, now)
  }

  predicate Actionable(v: Verdict) {
    v.level == Confirmed && !v.official
  }

  /** What the vault answers to one quarantine. */
  datatype Outcome = Moved | ChangedSinceScan | CouldNotMove

  /** The vault is called for exactly these verdicts. */
  predicate VaultCalled(v: Verdict, allowed: bool) {
    v.action == NoAction && Actionable(v) && allowed
  }

  function ActionFor(o: Outcome): Action {
    match o
    case Moved => Quarantined
    case ChangedSinceScan => RescanNeeded
    case CouldNotMove => ActionFailed
  }

  /** One verdict after the loop has passed it. */
  function Acted(v: Verdict, allowed: bool, o: Outcome): Verdict {
    if VaultCalled(v, allowed) then v.(action := ActionFor(o))
    else if v.action == NoAction && Actionable(v) then v.(action := Recommended)
    else v
  }

  // ---- what stands behind a move ----

  /** The engine looked at every target: one run covered the list, and every call in it succeeded. */
  ghost predicate LookedAtEverything(e: Engine, targets: seq<string>) {
    exists run: Run :: Ran(e.slug, e.attempts, targets, run) && CoveredBy(e, targets, run)
  }

  predicate CoveredBy(e: Engine, targets: seq<string>, run: Run) {
    && !run.cancelled && Concat(run.batches) == targets
    && forall i :: 0 <= i < |run.batches| ==> Succeeded(e.slug, e.attempts(i))
  }

  /** Report `i` is a completed one, of an engine that looked at everything, and it flags the content. */
  ghost predicate Accuses(engines: seq<Engine>, targets: seq<string>, reports: seq<Report>, origin: seq<nat>, i: int, sha: string)
    requires |origin| == |reports|
  {
    && 0 <= i < |reports| && origin[i] < |engines|
    && reports[i].status == Completed && reports[i].engine == engines[origin[i]].slug
    && LookedAtEverything(engines[origin[i]], targets)
    && exists f: Finding :: f in reports[i].findings && IsMalware(f.kind) && f.sha == sha && f.engine == reports[i].engine
  }

  ghost predicate TwoEnginesAccuse(engines: seq<Engine>, targets: seq<string>, reports: seq<Report>, origin: seq<nat>, sha: string)
    requires |origin| == |reports|
  {
    exists i, j :: Accuses(engines, targets, reports, origin, i, sha) && Accuses(engines, targets, reports, origin, j, sha)
                   && reports[i].engine != reports[j].engine
  }

  /** The reports of a cycle, as `RunEngines` leaves them, from adapters that label their findings with their own slug. */
  ghost predicate CycleReports(engines: seq<Engine>, targets: seq<string>, reports: seq<Report>, origin: seq<nat>) {
    && ReportsOf(engines, targets, reports, origin)
    && (forall e :: 0 <= e < |engines| ==> Honest(engines[e].slug, engines[e].attempts))
  }

  lemma FindingAccuses(engines: seq<Engine>, targets: seq<string>, reports: seq<Report>, origin: seq<nat>, i: nat, f: Finding)
    requires CycleReports(engines, targets, reports, origin) && i < |reports|
    requires !Abstains(reports[i]) && f in reports[i].findings && IsMalware(f.kind)
    ensures Accuses(engines, targets, reports, origin, i, f.sha) && reports[i].engine == f.engine
  {
    var e := engines[origin[i]];
    assert targets != [];
    var run :| Ran(e.slug, e.attempts, targets, run) && Merged(e.slug, run.partials, reports[i]);
    VoteMeansFullCoverage(e.slug, e.attempts, targets, run, reports[i]);
    FindingsCarryTheirEngine(e.slug, e.attempts, targets, run, reports[i]);
    assert CoveredBy(e, targets, run);
  }

  lemma VoteAccuses(p: Policy, engines: seq<Engine>, targets: seq<string>, reports: seq<Report>, origin: seq<nat>,
                    x: seq<string>, v: Verdict, k: nat) returns (i: nat)
    requires CycleReports(engines, targets, reports, origin)
    requires IsVerdict(p, reports, x, v) && k < |v.votes|
    ensures Accuses(engines, targets, reports, origin, i, v.sha) && reports[i].engine == v.votes[k].engine
  {
    var fs := FindingsFor(reports, v.sha);
    assert FromBest(p.cfg, fs, v.votes[k]);
    var b :| 0 <= b < |fs| && Best(p.cfg, fs, b) && v.votes[k] == VoteOf(p.cfg, fs[b]);
    FindingsForHolds(reports, v.sha, fs[b]);
    i :| 0 <= i < |reports| && !Abstains(reports[i]) && fs[b] in reports[i].findings;
    FindingAccuses(engines, targets, reports, origin, i, fs[b]);
  }

  /** The path does not consist of slashes alone. */
  predicate HasName(path: string) {
    exists i :: 0 <= i < |path| && path[i] != '/'
  }

  /** Everything that must hold before a file is moved without being asked. */
  ghost predicate MoveJustified(p: Policy, engines: seq<Engine>, targets: seq<string>, reports: seq<Report>, origin: seq<nat>,
                                sha: string, path: string, g: General, now: Instant, dryRun: bool)
    requires |origin| == |reports|
  {
    && !g.observation && !InGracePeriod(g, now) && !dryRun
    && !Vouched(reports, sha)
    && (HasName(path) && PathMatch.EmptyIsPlain(p.glob) ==> !PathMatch.MatchAny(p.glob, p.whitelist, path))
    && (p.reach.Some? ==> Reach.Reachable(Reach.Of(p.reach.value, path)))
    && TwoEnginesAccuse(engines, targets, reports, origin, sha)
  }

  /** Without veto, whitelist or unreachable path a verdict keeps its level and no action is set. */
  lemma UndecidedMeans(p: Policy, sha: string, path: string, votes: seq<Vote>, x: seq<string>, official: bool)
    ensures var v := Decide(p, sha, path, votes, x, official);
      (v.action == NoAction && v.level == Confirmed) <==>
        && !official && LevelOf(p.cfg, Score(p.cfg, Sum(Shares(votes)))) == Confirmed
        && PathMatch.WhichMatches(p.glob, p.whitelist, path) == ""
        && (p.reach.Some? ==> Reach.Reachable(Reach.Of(p.reach.value, path)))
  {
  }

  lemma ConfirmedHasTwo(p: Policy, reports: seq<Report>, x: seq<string>, v: Verdict)
    requires SoloCannotConfirm(p.cfg) && IsVerdict(p, reports, x, v) && v.level == Confirmed
    ensures |v.votes| >= 2 && v.votes[0].engine != v.votes[1].engine
  {
    var fs := FindingsFor(reports, v.sha);
    TwoEnginesExactly(p.cfg);
    assert LevelOf(p.cfg, Score(p.cfg, Sum(Shares(v.votes)))) == Confirmed;
    EnginesDiffer(p.cfg, fs, v.votes, 0, 1);
  }

  /**
   Action safety: in any cycle of honest adapters, under weights with which no engine confirms
   alone, the vault is called for a verdict only if the move is justified.
   */
  lemma ActionSafety(p: Policy, engines: seq<Engine>, targets: seq<string>, reports: seq<Report>, origin: seq<nat>,
                     x: seq<string>, vs: seq<Verdict>, k: nat, g: General, now: Instant, dryRun: bool)
    requires CycleReports(engines, targets, reports, origin) && SoloCannotConfirm(p.cfg)
    requires IsConsolidation(p, reports, x, vs) && k < |vs|
    requires VaultCalled(vs[k], AutomaticActionAllowed(g, now) && !dryRun)
    ensures MoveJustified(p, engines, targets, reports, origin, vs[k].sha, vs[k].path, g, now, dryRun)
  {
    var v := vs[k];
    assert IsVerdict(p, reports, x, v);
    UndecidedMeans(p, v.sha, v.path, v.votes, x, Vouched(reports, v.sha));
    ConfirmedHasTwo(p, reports, x, v);
    var i := VoteAccuses(p, engines, targets, reports, origin, x, v, 0);
    var j := VoteAccuses(p, engines, targets, reports, origin, x, v, 1);
    if PathMatch.MatchAny(p.glob, p.whitelist, v.path) && PathMatch.EmptyIsPlain(p.glob) {
      var n :| PathMatch.FirstMatch(p.glob, p.whitelist, v.path, n)
        && PathMatch.WhichMatches(p.glob, p.whitelist, v.path) == p.whitelist[n];
      assert p.whitelist[n] == "";
      PathMatch.EmptyPatternMatchesRootOnly(p.glob, v.path);
    }
  }
}
