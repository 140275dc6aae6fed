/**
 From reports to one verdict per content and path (`Consolidate` and what it calls in
 internal/verdict/verdict.go).
 */
module Consolidation {
  import opened Optional
  import opened Text
  import opened Schema
  import opened Verdicts
  import Ordering
  import PathMatch
  import Reach

  /** What a consolidation needs beside the reports: configuration, whitelist and, if known, what the web serves. */
  datatype Policy = Policy(cfg: Config, glob: PathMatch.Glob, whitelist: seq<string>, reach: Option<Reach.Classifier>)

  datatype Verdict = Verdict(sha: string, path: string, level: Level, score: real, votes: seq<Vote>,
                             abstentions: seq<string>, official: bool, location: Option<Reach.Location>,
                             action: Action, rule: string)

  // ---- the findings that may vote ----

  predicate ForSha(f: Finding, sha: string) {
    IsMalware(f.kind) && f.sha == sha
  }

  function Relevant(fs: seq<Finding>, sha: string): seq<Finding> {
    if fs == [] then []
    else Relevant(fs[..|fs| - 1], sha) + if ForSha(fs[|fs| - 1], sha) then [fs[|fs| - 1]] else []
  }

  /** All malware findings about one content, from the reports that do not abstain, in report order. */
  function FindingsFor(reports: seq<Report>, sha: string): seq<Finding> {
    if reports == [] then []
    else
      var r := reports[|reports| - 1];
      FindingsFor(reports[..|reports| - 1], sha) + if Abstains(r) then [] else Relevant(r.findings, sha)
  }

  predicate Votable(reports: seq<Report>, f: Finding) {
    IsMalware(f.kind) && exists i :: 0 <= i < |reports| && !Abstains(reports[i]) && f in reports[i].findings
  }

  /** Some completed report vouches for the content. */
  predicate Vouched(reports: seq<Report>, sha: string) {
    exists i :: 0 <= i < |reports| && !Abstains(reports[i]) && sha in reports[i].cleanFiles
  }

  /** Some finding that may vote names this content at this path. */
  ghost predicate Named(reports: seq<Report>, sha: string, path: string) {
    sha != "" && path != "" && exists f: Finding :: Votable(reports, f) && f.sha == sha && f.path == path
  }

  lemma {:induction false} RelevantHolds(fs: seq<Finding>, sha: string, f: Finding)
    ensures f in Relevant(fs, sha) <==> f in fs && ForSha(f, sha)
  {
    if fs != [] {
      RelevantHolds(fs[..|fs| - 1], sha, f);
      assert fs == fs[..|fs| - 1] + [fs[|fs| - 1]];
    }
  }

  lemma {:induction false} FindingsForHolds(reports: seq<Report>, sha: string, f: Finding)
    ensures f in FindingsFor(reports, sha) <==> Votable(reports, f) && f.sha == sha
  {
    if reports != [] {
      var front, r := reports[..|reports| - 1], reports[|reports| - 1];
      FindingsForHolds(front, sha, f);
      RelevantHolds(r.findings, sha, f);
      VotableLast(reports, f);
      assert f in FindingsFor(reports, sha) <==> f in FindingsFor(front, sha) || (!Abstains(r) && f in Relevant(r.findings, sha));
    }
  }

  lemma VotableLast(reports: seq<Report>, f: Finding)
    requires reports != []
    ensures var front, r := reports[..|reports| - 1], reports[|reports| - 1];
      Votable(reports, f) <==> Votable(front, f) || (IsMalware(f.kind) && !Abstains(r) && f in r.findings)
  {
    var front := reports[..|reports| - 1];
    assert forall i :: 0 <= i < |front| ==> front[i] == reports[i];
    if Votable(front, f) {
      var i :| 0 <= i < |front| && !Abstains(front[i]) && f in front[i].findings;
      assert !Abstains(reports[i]) && f in reports[i].findings;
    }
  }

  // ---- one verdict ----

  /** `consolidateFile` once the votes are known: veto, then reachability, then the whitelist. */
  function Decide(p: Policy, sha: string, path: string, votes: seq<Vote>, abstentions: seq<string>, official: bool): Verdict {
    var score := Score(p.cfg, Sum(Shares(votes)));
    var level := LevelOf(p.cfg, score);
    if official then
      Verdict(sha, path, Clean, 0.0, votes, abstentions, true, None, SkippedOfficial, "")
    else
      var location := if p.reach.Some? then Some(Reach.Of(p.reach.value, path)) else None;
      var rule := PathMatch.WhichMatches(p.glob, p.whitelist, path);
      var action :=
        if rule != "" && level != Clean then SkippedWhitelist
        else if location.Some? && !Reach.Reachable(location.value) && level != Clean then SkippedNotReachable
        else NoAction;
      Verdict(sha, path, level, score, votes, abstentions, false, location, action,
              if action == SkippedWhitelist then rule else "")
  }

  ghost predicate IsVerdict(p: Policy, reports: seq<Report>, abstentions: seq<string>, v: Verdict) {
    && IsBallot(p.cfg, FindingsFor(reports, v.sha), v.votes)
    && v == Decide(p, v.sha, v.path, v.votes, abstentions, Vouched(reports, v.sha))
  }

  predicate KeyBefore(a: (string, string), b: (string, string)) {
    Less(a.0, b.0) || (a.0 == b.0 && Less(a.1, b.1))
  }

  lemma KeyBeforeIsStrict()
    ensures Ordering.StrictOrder(KeyBefore)
  {
    forall x: (string, string) ensures !KeyBefore(x, x) {
      LessIrreflexive(x.0);
      LessIrreflexive(x.1);
    }
    forall x: (string, string), y: (string, string), z: (string, string) | KeyBefore(x, y) && KeyBefore(y, z)
      ensures KeyBefore(x, z)
    {
      if Less(x.0, y.0) && Less(y.0, z.0) { LessTransitive(x.0, y.0, z.0); }
      if Less(x.1, y.1) && Less(y.1, z.1) { LessTransitive(x.1, y.1, z.1); }
    }
  }

  lemma LessIsStrict()
    ensures Ordering.StrictOrder(Less)
  {
    forall x: string ensures !Less(x, x) { LessIrreflexive(x); }
    forall x: string, y: string, z: string | Less(x, y) && Less(y, z) ensures Less(x, z) { LessTransitive(x, y, z); }
  }

  function Keys(vs: seq<Verdict>): (ks: seq<(string, string)>)
    ensures |ks| == |vs| && forall i :: 0 <= i < |vs| ==> ks[i] == (vs[i].sha, vs[i].path)
  {
    seq(|vs|, i requires 0 <= i < |vs| => (vs[i].sha, vs[i].path))
  }

  /**
   The result of a consolidation: exactly one verdict for every content and path named by a
   finding that may vote, sorted by content and then by path, each decided from all the findings
   about its content.
   */
  ghost predicate IsConsolidation(p: Policy, reports: seq<Report>, abstentions: seq<string>, vs: seq<Verdict>) {
    && Ordering.Sorted(KeyBefore, Keys(vs))
    && (forall k :: 0 <= k < |vs| ==> Named(reports, vs[k].sha, vs[k].path) && IsVerdict(p, reports, abstentions, vs[k]))
    && (forall sha, path :: Named(reports, sha, path) ==> (sha, path) in Keys(vs))
  }

  // ---- the loops ----

  /** `collectOfficialCleanHashes`. */
  method CollectOfficial(reports: seq<Report>) returns (official: set<string>)
    ensures forall h :: h in official <==> Vouched(reports, h)
  {
    official := {};
    var i := 0;
    while i < |reports|
      invariant 0 <= i <= |reports|
      invariant forall h :: h in official <==> exists k :: 0 <= k < i && !Abstains(reports[k]) && h in reports[k].cleanFiles
    {
      if !Abstains(reports[i]) {
        official := official + set h | h in reports[i].cleanFiles;
      }
      i := i + 1;
    }
  }

  /** `collectAbstentions`, its keys sorted: who did not finish looking, or vanished. */
  method CollectAbstentions(reports: seq<Report>, expected: seq<string>) returns (list: seq<string>)
    ensures Ordering.Sorted(Less, list)
    ensures forall e :: e in list <==>
      || (exists i :: 0 <= i < |reports| && reports[i].engine == e && Abstains(reports[i]))
      || (e in expected && forall i :: 0 <= i < |reports| ==> reports[i].engine != e)
  {
    var out: set<string> := {};
    var seen: set<string> := {};
    var i := 0;
    while i < |reports|
      invariant 0 <= i <= |reports|
      invariant forall e :: e in seen <==> exists k :: 0 <= k < i && reports[k].engine == e
      invariant forall e :: e in out <==> exists k :: 0 <= k < i && reports[k].engine == e && Abstains(reports[k])
    {
      seen := seen + {reports[i].engine};
      if Abstains(reports[i]) { out := out + {reports[i].engine}; }
      i := i + 1;
    }
    var vanished := set e | e in expected && e !in seen;
    list := SortSet(out + vanished);
  }

  /** Listing a set in any order and sorting it. */
  method SortSet(s: set<string>) returns (sorted: seq<string>)
    ensures Ordering.Sorted(Less, sorted)
    ensures forall x :: x in sorted <==> x in s
  {
    var listed: seq<string> := [];
    var rest := s;
    while rest != {}
      invariant rest <= s
      invariant forall x :: x in listed <==> x in s && x !in rest
      invariant forall a, b :: 0 <= a < b < |listed| ==> listed[a] != listed[b]
      decreases |rest|
    {
      var x :| x in rest;
      listed, rest := listed + [x], rest - {x};
    }
    forall a, b | 0 <= a < b < |listed| ensures Less(listed[a], listed[b]) || Less(listed[b], listed[a]) {
      LessTotal(listed[a], listed[b]);
    }
    LessIsStrict();
    sorted := Ordering.Sort(Less, listed);
    forall x ensures x in sorted <==> x in s {
      assert x in sorted <==> x in multiset(sorted);
      assert x in listed <==> x in multiset(listed);
    }
  }

  function Group(reports: seq<Report>, partial: seq<Finding>, sha: string): seq<Finding> {
    FindingsFor(reports, sha) + Relevant(partial, sha)
  }

  ghost predicate Grouped(groups: map<string, seq<Finding>>, reports: seq<Report>, partial: seq<Finding>) {
    forall s :: (s in groups <==> s != "" && Group(reports, partial, s) != []) && (s in groups ==> groups[s] == Group(reports, partial, s))
  }

  lemma GroupedStep(groups: map<string, seq<Finding>>, reports: seq<Report>, partial: seq<Finding>, f: Finding)
    requires Grouped(groups, reports, partial)
    ensures Grouped(AddToGroup(groups, f), reports, partial + [f])
  {
    var next := partial + [f];
    assert next[..|next| - 1] == partial && next[|next| - 1] == f;
    forall s ensures var g := Group(reports, next, s);
      (s in AddToGroup(groups, f) <==> s != "" && g != []) && (s in AddToGroup(groups, f) ==> AddToGroup(groups, f)[s] == g)
    {
      var before := Group(reports, partial, s);
      assert s in groups <==> s != "" && before != [];
      assert Group(reports, next, s) == before + if ForSha(f, s) then [f] else [];
    }
  }

  function AddToGroup(groups: map<string, seq<Finding>>, f: Finding): map<string, seq<Finding>> {
    if !IsMalware(f.kind) || f.sha == "" then groups
    else groups[f.sha := (if f.sha in groups then groups[f.sha] else []) + [f]]
  }

  lemma GroupedNext(groups: map<string, seq<Finding>>, reports: seq<Report>, r: Report)
    requires Grouped(groups, reports, if Abstains(r) then [] else r.findings)
    ensures Grouped(groups, reports + [r], [])
  {
    var all := reports + [r];
    assert all[..|all| - 1] == reports;
    forall s ensures Group(all, [], s) == Group(reports, if Abstains(r) then [] else r.findings, s) {}
  }

  /** The inner loop of `groupBySHA`: one report's findings. */
  method GroupReport(before: map<string, seq<Finding>>, ghost reports: seq<Report>, r: Report)
    returns (groups: map<string, seq<Finding>>)
    requires Grouped(before, reports, [])
    ensures Grouped(groups, reports, r.findings)
  {
    groups := before;
    var j := 0;
    while j < |r.findings|
      invariant 0 <= j <= |r.findings|
      invariant Grouped(groups, reports, r.findings[..j])
    {
      var f := r.findings[j];
      GroupedStep(groups, reports, r.findings[..j], f);
      assert r.findings[..j + 1] == r.findings[..j] + [f];
      if IsMalware(f.kind) && f.sha != "" {
        groups := groups[f.sha := (if f.sha in groups then groups[f.sha] else []) + [f]];
      }
      j := j + 1;
    }
    assert r.findings[..|r.findings|] == r.findings;
  }

  lemma GroupedDone(groups: map<string, seq<Finding>>, reports: seq<Report>)
    requires Grouped(groups, reports, [])
    ensures forall s :: s in groups <==> s != "" && FindingsFor(reports, s) != []
    ensures forall s :: s in groups ==> groups[s] == FindingsFor(reports, s)
  {
    forall s ensures Group(reports, [], s) == FindingsFor(reports, s) {}
  }

  /** `groupBySHA`. */
  method GroupBySha(reports: seq<Report>) returns (groups: map<string, seq<Finding>>)
    ensures forall s :: s in groups <==> s != "" && FindingsFor(reports, s) != []
    ensures forall s :: s in groups ==> groups[s] == FindingsFor(reports, s)
  {
    groups := map[];
    var i := 0;
    while i < |reports|
      invariant 0 <= i <= |reports|
      invariant Grouped(groups, reports[..i], [])
    {
      if !Abstains(reports[i]) {
        groups := GroupReport(groups, reports[..i], reports[i]);
      }
      GroupedNext(groups, reports[..i], reports[i]);
      assert reports[..i + 1] == reports[..i] + [reports[i]];
      i := i + 1;
    }
    assert reports[..|reports|] == reports;
    GroupedDone(groups, reports);
  }

  predicate NamesPath(fs: seq<Finding>, path: string) {
    path != "" && exists i :: 0 <= i < |fs| && fs[i].path == path
  }

  /** `distinctPaths`. */
  method DistinctPaths(fs: seq<Finding>) returns (paths: seq<string>)
    ensures Ordering.Sorted(Less, paths)
    ensures forall q :: q in paths <==> NamesPath(fs, q)
  {
    var seen: set<string> := {};
    var i := 0;
    while i < |fs|
      invariant 0 <= i <= |fs|
      invariant forall q :: q in seen <==> q != "" && exists k :: 0 <= k < i && fs[k].path == q
    {
      if fs[i].path != "" && fs[i].path !in seen {
        seen := seen + {fs[i].path};
      }
      i := i + 1;
    }
    paths := SortSet(seen);
  }

  /** `consolidateFile`. */
  method ConsolidateFile(p: Policy, fs: seq<Finding>, sha: string, path: string, official: bool, abstentions: seq<string>)
    returns (v: Verdict)
    ensures v.sha == sha && v.path == path && IsBallot(p.cfg, fs, v.votes)
    ensures v == Decide(p, sha, path, v.votes, abstentions, official)
  {
    hide IsBallot, LevelOf, Reach.Of, PathMatch.WhichMatches;
    var votes := BuildVotes(p.cfg, fs);
    var sum := 0.0;
    var i := 0;
    while i < |votes|
      invariant 0 <= i <= |votes|
      invariant sum == Sum(Shares(votes)[..i])
    {
      sum := sum + votes[i].effective;
      assert Shares(votes)[..i + 1][..i] == Shares(votes)[..i];
      i := i + 1;
    }
    assert Shares(votes)[..|votes|] == Shares(votes);
    var score := Score(p.cfg, sum);
    v := Verdict(sha, path, LevelOf(p.cfg, score), score, votes, abstentions, false, None, NoAction, "");
    if official {
      return v.(level := Clean, score := 0.0, official := true, action := SkippedOfficial);
    }
    if p.reach.Some? {
      var loc := Reach.Of(p.reach.value, path);
      v := v.(location := Some(loc));
      if !Reach.Reachable(loc) && v.level != Clean { v := v.(action := SkippedNotReachable); }
    }
    var rule := PathMatch.WhichMatches(p.glob, p.whitelist, path);
    if rule != "" && v.level != Clean { v := v.(action := SkippedWhitelist, rule := rule); }
  }

  ghost predicate DecidedFrom(p: Policy, fs: seq<Finding>, sha: string, official: bool, abstentions: seq<string>, v: Verdict) {
    v.sha == sha && IsBallot(p.cfg, fs, v.votes) && v == Decide(p, sha, v.path, v.votes, abstentions, official)
  }

  ghost predicate OfContent(p: Policy, fs: seq<Finding>, sha: string, official: bool, abstentions: seq<string>, vs: seq<Verdict>) {
    && Ordering.Sorted(KeyBefore, Keys(vs))
    && (forall k :: 0 <= k < |vs| ==> NamesPath(fs, vs[k].path) && DecidedFrom(p, fs, sha, official, abstentions, vs[k]))
    && forall q :: NamesPath(fs, q) ==> (sha, q) in Keys(vs)
  }

  /** The verdicts of one content, one per path. */
  method ConsolidateContent(p: Policy, fs: seq<Finding>, sha: string, official: bool, abstentions: seq<string>)
    returns (vs: seq<Verdict>)
    ensures OfContent(p, fs, sha, official, abstentions, vs)
  {
    hide IsBallot, Decide;
    var paths := DistinctPaths(fs);
    vs := [];
    var i := 0;
    while i < |paths|
      invariant 0 <= i <= |paths| && |vs| == i
      invariant forall k :: 0 <= k < i ==> vs[k].path == paths[k] && DecidedFrom(p, fs, sha, official, abstentions, vs[k])
    {
      var v := ConsolidateFile(p, fs, sha, paths[i], official, abstentions);
      vs := vs + [v];
      i := i + 1;
    }
    forall k | 0 <= k < |vs| ensures NamesPath(fs, vs[k].path) { assert paths[k] in paths; }
    forall q | NamesPath(fs, q) ensures (sha, q) in Keys(vs) {
      assert q in paths;
      var k :| 0 <= k < |paths| && paths[k] == q;
      assert Keys(vs)[k] == (sha, q);
    }
  }

  lemma NamedByGroup(reports: seq<Report>, sha: string, path: string)
    requires sha != ""
    ensures NamesPath(FindingsFor(reports, sha), path) <==> Named(reports, sha, path)
  {
    var fs := FindingsFor(reports, sha);
    if NamesPath(fs, path) {
      var i :| 0 <= i < |fs| && fs[i].path == path;
      FindingsForHolds(reports, sha, fs[i]);
    }
    if Named(reports, sha, path) {
      var f: Finding :| Votable(reports, f) && f.sha == sha && f.path == path;
      FindingsForHolds(reports, sha, f);
      assert f in fs;
    }
  }

  lemma SortedAppend(a: seq<Verdict>, b: seq<Verdict>)
    requires Ordering.Sorted(KeyBefore, Keys(a)) && Ordering.Sorted(KeyBefore, Keys(b))
    requires forall i, j :: 0 <= i < |a| && 0 <= j < |b| ==> Less(a[i].sha, b[j].sha)
    ensures Ordering.Sorted(KeyBefore, Keys(a + b))
  {
    var ks := Keys(a + b);
    forall i, j | 0 <= i < j < |ks| ensures KeyBefore(ks[i], ks[j]) {
      if j < |a| {
        assert ks[i] == Keys(a)[i] && ks[j] == Keys(a)[j];
      } else if i >= |a| {
        assert ks[i] == Keys(b)[i - |a|] && ks[j] == Keys(b)[j - |a|];
      } else {
        assert ks[i].0 == a[i].sha && ks[j].0 == b[j - |a|].sha;
      }
    }
  }

  /** The verdicts of the contents done so far. */
  ghost predicate Progress(p: Policy, reports: seq<Report>, x: seq<string>, done: seq<string>, vs: seq<Verdict>) {
    && Ordering.Sorted(KeyBefore, Keys(vs))
    && (forall k :: 0 <= k < |vs| ==>
          vs[k].sha in done && Named(reports, vs[k].sha, vs[k].path) && IsVerdict(p, reports, x, vs[k]))
    && forall sha, path :: sha in done && Named(reports, sha, path) ==> (sha, path) in Keys(vs)
  }

  lemma ContentVerdicts(p: Policy, reports: seq<Report>, x: seq<string>, sha: string, more: seq<Verdict>, k: nat)
    requires sha != "" && k < |more|
    requires OfContent(p, FindingsFor(reports, sha), sha, Vouched(reports, sha), x, more)
    ensures more[k].sha == sha && Named(reports, sha, more[k].path) && IsVerdict(p, reports, x, more[k])
  {
    NamedByGroup(reports, sha, more[k].path);
  }

  lemma ContentComplete(p: Policy, reports: seq<Report>, x: seq<string>, sha: string, vs: seq<Verdict>, more: seq<Verdict>, path: string)
    requires sha != "" && Named(reports, sha, path)
    requires OfContent(p, FindingsFor(reports, sha), sha, Vouched(reports, sha), x, more)
    ensures (sha, path) in Keys(vs + more)
  {
    NamedByGroup(reports, sha, path);
    var k :| 0 <= k < |more| && Keys(more)[k] == (sha, path);
    assert Keys(vs + more)[|vs| + k] == (sha, path);
  }

  lemma KeysGrow(vs: seq<Verdict>, more: seq<Verdict>, key: (string, string))
    requires key in Keys(vs)
    ensures key in Keys(vs + more)
  {
    var k :| 0 <= k < |vs| && Keys(vs)[k] == key;
    assert Keys(vs + more)[k] == key;
  }

  lemma ProgressStep(p: Policy, reports: seq<Report>, x: seq<string>, done: seq<string>, vs: seq<Verdict>,
                     sha: string, more: seq<Verdict>)
    requires Progress(p, reports, x, done, vs) && sha != ""
    requires forall d :: d in done ==> Less(d, sha)
    requires OfContent(p, FindingsFor(reports, sha), sha, Vouched(reports, sha), x, more)
    ensures Progress(p, reports, x, done + [sha], vs + more)
  {
    forall k | 0 <= k < |more|
      ensures more[k].sha == sha && Named(reports, sha, more[k].path) && IsVerdict(p, reports, x, more[k])
    {
      ContentVerdicts(p, reports, x, sha, more, k);
    }
    SortedAppend(vs, more);
    forall s, path | s in done + [sha] && Named(reports, s, path) ensures (s, path) in Keys(vs + more) {
      if s in done {
        KeysGrow(vs, more, (s, path));
      } else {
        ContentComplete(p, reports, x, sha, vs, more, path);
      }
    }
  }

  /** `Consolidate`. */
  method Consolidate(p: Policy, reports: seq<Report>, expected: seq<string>)
    returns (vs: seq<Verdict>, abstentions: seq<string>, cleanCount: nat)
    ensures IsConsolidation(p, reports, abstentions, vs)
    ensures forall e :: e in abstentions <==>
      || (exists i :: 0 <= i < |reports| && reports[i].engine == e && Abstains(reports[i]))
      || (e in expected && forall i :: 0 <= i < |reports| ==> reports[i].engine != e)
  {
    hide OfContent, IsVerdict, Ordering.Sorted, FindingsFor, KeyBefore;
    abstentions := CollectAbstentions(reports, expected);
    var official := CollectOfficial(reports);
    var groups := GroupBySha(reports);
    var shas := SortSet(groups.Keys);
    EarlierSorted(shas);
    vs := [];
    NoProgress(p, reports, abstentions);
    var i := 0;
    while i < |shas|
      invariant 0 <= i <= |shas|
      invariant Progress(p, reports, abstentions, shas[..i], vs)
    {
      var sha := shas[i];
      assert sha in shas;
      var more := ConsolidateContent(p, groups[sha], sha, sha in official, abstentions);
      ProgressStep(p, reports, abstentions, shas[..i], vs, sha, more);
      assert shas[..i + 1] == shas[..i] + [sha];
      vs := vs + more;
      i := i + 1;
    }
    assert shas[..|shas|] == shas;
    Consolidated(p, reports, abstentions, shas, vs);
    cleanCount := |official|;
  }

  lemma EarlierSorted(shas: seq<string>)
    requires Ordering.Sorted(Less, shas)
    ensures forall i, j :: 0 <= i < j < |shas| ==> Less(shas[i], shas[j])
  {
  }

  lemma NoProgress(p: Policy, reports: seq<Report>, x: seq<string>)
    ensures Progress(p, reports, x, [], [])
  {
  }

  /** When every content that any finding names is done, the verdicts are complete. */
  lemma Consolidated(p: Policy, reports: seq<Report>, x: seq<string>, shas: seq<string>, vs: seq<Verdict>)
    requires Progress(p, reports, x, shas, vs)
    requires forall s :: s in shas <==> s != "" && FindingsFor(reports, s) != []
    ensures IsConsolidation(p, reports, x, vs)
  {
    forall sha, path | Named(reports, sha, path) ensures (sha, path) in Keys(vs) {
      NamedByGroup(reports, sha, path);
    }
  }

  // ---- what a consolidation guarantees ----

  /** The part of a verdict that decides: who voted how strongly, the score, the level and the action. */
  datatype Core = Core(sha: string, path: string, level: Level, score: real, shares: seq<Share>, official: bool,
                       location: Option<Reach.Location>, action: Action, rule: string)

  function CoreOf(v: Verdict): Core {
    Core(v.sha, v.path, v.level, v.score, Shares(v.votes), v.official, v.location, v.action, v.rule)
  }

  function Cores(vs: seq<Verdict>): (cs: seq<Core>)
    ensures |cs| == |vs| && forall i :: 0 <= i < |vs| ==> cs[i] == CoreOf(vs[i])
  {
    seq(|vs|, i requires 0 <= i < |vs| => CoreOf(vs[i]))
  }

  /** The two lists of reports hold the same findings that may vote, and vouch for the same contents. */
  ghost predicate SameEvidence(a: seq<Report>, b: seq<Report>) {
    && (forall f: Finding :: Votable(a, f) <==> Votable(b, f))
    && (forall h: string :: Vouched(a, h) <==> Vouched(b, h))
  }

  lemma FindingsWithin(a: seq<Report>, b: seq<Report>, sha: string)
    requires forall f: Finding :: Votable(a, f) ==> Votable(b, f)
    ensures Within(FindingsFor(a, sha), FindingsFor(b, sha))
  {
    var fs := FindingsFor(a, sha);
    forall i | 0 <= i < |fs| ensures fs[i] in FindingsFor(b, sha) {
      FindingsForHolds(a, sha, fs[i]);
      FindingsForHolds(b, sha, fs[i]);
    }
  }

  lemma SameNames(p: Policy, a: seq<Report>, b: seq<Report>, x: seq<string>, y: seq<string>, va: seq<Verdict>, vb: seq<Verdict>)
    requires IsConsolidation(p, a, x, va) && IsConsolidation(p, b, y, vb) && SameEvidence(a, b)
    ensures forall k :: 0 <= k < |va| ==> Keys(va)[k] in Keys(vb)
  {
    forall k | 0 <= k < |va| ensures Keys(va)[k] in Keys(vb) {
      assert Named(a, va[k].sha, va[k].path);
      assert Named(b, va[k].sha, va[k].path);
    }
  }

  lemma SameEvidenceSameCore(p: Policy, a: seq<Report>, b: seq<Report>, x: seq<string>, y: seq<string>, v: Verdict, w: Verdict)
    requires IsVerdict(p, a, x, v) && IsVerdict(p, b, y, w) && SameEvidence(a, b)
    requires v.sha == w.sha && v.path == w.path
    ensures CoreOf(v) == CoreOf(w)
  {
    FindingsWithin(a, b, v.sha);
    FindingsWithin(b, a, v.sha);
    SharesUnordered(p.cfg, FindingsFor(a, v.sha), FindingsFor(b, v.sha), v.votes, w.votes);
    assert Vouched(a, v.sha) <==> Vouched(b, v.sha);
  }

  /**
   Consolidation is determined by its evidence: whatever the order of the reports and of the
   findings in them, whatever is repeated, and whatever abstaining reports say, the same contents
   at the same paths get the same shares, score, level and action, in the same order.
   */
  lemma SameEvidenceSameDecisions(p: Policy, a: seq<Report>, b: seq<Report>, x: seq<string>, y: seq<string>,
                                  va: seq<Verdict>, vb: seq<Verdict>)
    requires IsConsolidation(p, a, x, va) && IsConsolidation(p, b, y, vb) && SameEvidence(a, b)
    ensures Cores(va) == Cores(vb)
  {
    SameNames(p, a, b, x, y, va, vb);
    SameNames(p, b, a, y, x, vb, va);
    KeyBeforeIsStrict();
    Ordering.SortedUnique(KeyBefore, Keys(va), Keys(vb));
    assert |Keys(va)| == |Keys(vb)|;
    forall k | 0 <= k < |va| ensures CoreOf(va[k]) == CoreOf(vb[k]) {
      assert Keys(va)[k] == Keys(vb)[k];
      SameEvidenceSameCore(p, a, b, x, y, va[k], vb[k]);
    }
  }

  /** Two orders of the same reports hold the same evidence. */
  lemma ReorderedEvidence(a: seq<Report>, b: seq<Report>)
    requires multiset(a) == multiset(b)
    ensures SameEvidence(a, b)
  {
    forall i | 0 <= i < |a| ensures a[i] in b { assert a[i] in multiset(b); }
    forall i | 0 <= i < |b| ensures b[i] in a { assert b[i] in multiset(a); }
  }

  /** So do the same reports with the findings inside each of them reordered or repeated. */
  lemma ReorderedFindingsEvidence(a: seq<Report>, b: seq<Report>)
    requires |a| == |b|
    requires forall i :: 0 <= i < |a| ==> a[i].status == b[i].status && a[i].cleanFiles == b[i].cleanFiles
    requires forall i :: 0 <= i < |a| ==> forall f :: f in a[i].findings <==> f in b[i].findings
    ensures SameEvidence(a, b)
  {
    forall f: Finding ensures Votable(a, f) <==> Votable(b, f) {
      if Votable(a, f) {
        var i :| 0 <= i < |a| && !Abstains(a[i]) && f in a[i].findings;
        assert f in b[i].findings;
      }
      if Votable(b, f) {
        var i :| 0 <= i < |b| && !Abstains(b[i]) && f in b[i].findings;
        assert f in a[i].findings;
      }
    }
    forall h: string ensures Vouched(a, h) <==> Vouched(b, h) {
      if Vouched(a, h) {
        var i :| 0 <= i < |a| && !Abstains(a[i]) && h in a[i].cleanFiles;
        assert h in b[i].cleanFiles;
      }
      if Vouched(b, h) {
        var i :| 0 <= i < |b| && !Abstains(b[i]) && h in b[i].cleanFiles;
        assert h in a[i].cleanFiles;
      }
    }
  }

  function WithoutAbstaining(reports: seq<Report>): seq<Report> {
    if reports == [] then []
    else (if Abstains(reports[0]) then [] else [reports[0]]) + WithoutAbstaining(reports[1..])
  }

  /** Abstaining reports carry no evidence: deleting them all changes no decision. */
  lemma {:induction false} AbstentionsAreNeutral(reports: seq<Report>)
    ensures forall r :: r in WithoutAbstaining(reports) <==> r in reports && !Abstains(r)
    ensures SameEvidence(reports, WithoutAbstaining(reports))
  {
    CompletedHold(reports);
    var kept := WithoutAbstaining(reports);
    forall f: Finding ensures Votable(reports, f) <==> Votable(kept, f) {
      if Votable(reports, f) {
        var i :| 0 <= i < |reports| && !Abstains(reports[i]) && f in reports[i].findings;
        assert reports[i] in kept;
      }
      if Votable(kept, f) {
        var i :| 0 <= i < |kept| && !Abstains(kept[i]) && f in kept[i].findings;
        assert kept[i] in reports;
      }
    }
    forall h: string ensures Vouched(reports, h) <==> Vouched(kept, h) {
      if Vouched(reports, h) {
        var i :| 0 <= i < |reports| && !Abstains(reports[i]) && h in reports[i].cleanFiles;
        assert reports[i] in kept;
      }
      if Vouched(kept, h) {
        var i :| 0 <= i < |kept| && !Abstains(kept[i]) && h in kept[i].cleanFiles;
        assert kept[i] in reports;
      }
    }
  }

  lemma {:induction false} CompletedHold(reports: seq<Report>)
    ensures forall r :: r in WithoutAbstaining(reports) <==> r in reports && !Abstains(r)
  {
    if reports != [] {
      CompletedHold(reports[1..]);
      assert reports == [reports[0]] + reports[1..];
    }
  }

  /**
   Adding evidence never lowers a score or a level: if every finding that may vote in `a` may vote
   in `b`, and `b` vouches for the content only if `a` did, each verdict of `a` has one in `b` for
   the same content and path that is at least as severe.
   */
  lemma MoreEvidenceNeverLowers(p: Policy, a: seq<Report>, b: seq<Report>, x: seq<string>, y: seq<string>,
                                va: seq<Verdict>, vb: seq<Verdict>, k: nat) returns (n: nat)
    requires IsConsolidation(p, a, x, va) && IsConsolidation(p, b, y, vb) && ValidMultipliers(p.cfg) && k < |va|
    requires forall f: Finding :: Votable(a, f) ==> Votable(b, f)
    requires Vouched(b, va[k].sha) ==> Vouched(a, va[k].sha)
    ensures n < |vb| && vb[n].sha == va[k].sha && vb[n].path == va[k].path
    ensures va[k].score <= vb[n].score && Rank(va[k].level) <= Rank(vb[n].level)
  {
    var sha := va[k].sha;
    assert Named(a, sha, va[k].path) && Named(b, sha, va[k].path);
    n :| 0 <= n < |vb| && Keys(vb)[n] == (sha, va[k].path);
    assert IsVerdict(p, a, x, va[k]) && IsVerdict(p, b, y, vb[n]);
    FindingsWithin(a, b, sha);
    BallotsGrow(p.cfg, FindingsFor(a, sha), FindingsFor(b, sha), va[k].votes, vb[n].votes);
  }

  /** All copies of one content carry the same full vote list and the same score and level. */
  lemma SameContentSameVotes(p: Policy, reports: seq<Report>, x: seq<string>, vs: seq<Verdict>, i: nat, j: nat)
    requires IsConsolidation(p, reports, x, vs) && i < |vs| && j < |vs| && vs[i].sha == vs[j].sha
    ensures vs[i].votes == vs[j].votes && vs[i].score == vs[j].score && vs[i].level == vs[j].level
  {
    assert IsVerdict(p, reports, x, vs[i]) && IsVerdict(p, reports, x, vs[j]);
    BallotUnique(p.cfg, FindingsFor(reports, vs[i].sha), vs[i].votes, vs[j].votes);
  }

  /** One verdict per content and path, never two. */
  lemma OneVerdictEach(p: Policy, reports: seq<Report>, x: seq<string>, vs: seq<Verdict>, i: nat, j: nat)
    requires IsConsolidation(p, reports, x, vs) && i < |vs| && j < |vs|
    requires vs[i].sha == vs[j].sha && vs[i].path == vs[j].path
    ensures i == j
  {
    KeyBeforeIsStrict();
    Ordering.SortedPlace(KeyBefore, Keys(vs), i, j);
  }
}
