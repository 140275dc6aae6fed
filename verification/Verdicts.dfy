/**
 The consensus engine (internal/verdict/verdict.go): votes per engine, a saturating score, the
 checksum veto, reachability and the whitelist. Weights and scores are reals. The program walks
 maps in no fixed order and sorts; its results are stated as what any order must produce.
 */
module Verdicts {
  import opened Text
  import opened Schema
  import Ordering

  datatype Config = Config(weights: map<string, real>, saturation: real, confirmedAt: real, likelyAt: real,
                           suspiciousAt: real, signature: real, heuristic: real, anomaly: real)

  function Weight(cfg: Config, engine: string): real {
    if engine in cfg.weights then cfg.weights[engine] else 0.0
  }

  /** An unknown confidence weighs as the weakest one. */
  function Multiplier(cfg: Config, c: Confidence): real {
    match c
    case Signature => cfg.signature
    case Heuristic => cfg.heuristic
    case Anomaly => cfg.anomaly
    case UnknownConfidence => cfg.anomaly
  }

  /** Findings of unknown engines, or of engines without weight, are archived but do not vote. */
  predicate Counts(cfg: Config, f: Finding) {
    Weight(cfg, f.engine) > 0.0
  }

  function Effective(cfg: Config, f: Finding): real {
    Strength(cfg, f.engine, f.confidence)
  }

  function Strength(cfg: Config, engine: string, c: Confidence): real {
    Weight(cfg, engine) * Multiplier(cfg, c)
  }

  datatype Vote = Vote(engine: string, findingId: string, weight: real, confidence: Confidence, effective: real,
                       rule: string, category: string)

  function VoteOf(cfg: Config, f: Finding): Vote {
    Vote(f.engine, f.id, Weight(cfg, f.engine), f.confidence, Effective(cfg, f), f.rule, f.category)
  }

  /** Strongest vote first, then by engine. */
  predicate Before(a: Vote, b: Vote) {
    a.effective > b.effective || (a.effective == b.effective && Less(a.engine, b.engine))
  }

  lemma BeforeIsStrict()
    ensures Ordering.StrictOrder(Before)
  {
    forall x: Vote ensures !Before(x, x) { LessIrreflexive(x.engine); }
    forall x: Vote, y: Vote, z: Vote | Before(x, y) && Before(y, z) ensures Before(x, z) {
      if Less(x.engine, y.engine) && Less(y.engine, z.engine) { LessTransitive(x.engine, y.engine, z.engine); }
    }
  }

  // ---- one vote per engine ----

  /** Finding `i` is the first of its engine's strongest findings. */
  predicate Best(cfg: Config, fs: seq<Finding>, i: int) {
    && 0 <= i < |fs| && Counts(cfg, fs[i])
    && forall j :: 0 <= j < |fs| && fs[j].engine == fs[i].engine ==>
         Effective(cfg, fs[j]) <= Effective(cfg, fs[i]) && (j < i ==> Effective(cfg, fs[j]) < Effective(cfg, fs[i]))
  }

  predicate FromBest(cfg: Config, fs: seq<Finding>, v: Vote) {
    exists i :: 0 <= i < |fs| && Best(cfg, fs, i) && v == VoteOf(cfg, fs[i])
  }

  predicate Voted(votes: seq<Vote>, engine: string) {
    exists k :: 0 <= k < |votes| && votes[k].engine == engine
  }

  /** The vote list of some findings: sorted, one best vote for every engine that counts, nothing else. */
  ghost predicate IsBallot(cfg: Config, fs: seq<Finding>, votes: seq<Vote>) {
    && Ordering.Sorted(Before, votes)
    && (forall k :: 0 <= k < |votes| ==> FromBest(cfg, fs, votes[k]))
    && (forall i :: 0 <= i < |fs| && Counts(cfg, fs[i]) ==> Voted(votes, fs[i].engine))
  }

  /** The map `buildVotes` fills: for each engine seen so far, its best vote. */
  predicate IsBestMap(cfg: Config, fs: seq<Finding>, best: map<string, Vote>) {
    && (forall e :: e in best ==> best[e].engine == e && FromBest(cfg, fs, best[e]))
    && (forall j :: 0 <= j < |fs| && Counts(cfg, fs[j]) ==> fs[j].engine in best)
  }

  lemma BestStays(cfg: Config, fs: seq<Finding>, f: Finding, v: Vote)
    requires FromBest(cfg, fs, v)
    requires v.engine == f.engine ==> Effective(cfg, f) <= v.effective
    ensures FromBest(cfg, fs + [f], v)
  {
    var i :| 0 <= i < |fs| && Best(cfg, fs, i) && v == VoteOf(cfg, fs[i]);
    assert (fs + [f])[i] == fs[i];
    assert Best(cfg, fs + [f], i);
  }

  lemma BestArrives(cfg: Config, fs: seq<Finding>, f: Finding, best: map<string, Vote>)
    requires IsBestMap(cfg, fs, best) && Counts(cfg, f)
    requires f.engine in best ==> Effective(cfg, f) > best[f.engine].effective
    ensures FromBest(cfg, fs + [f], VoteOf(cfg, f))
  {
    var all := fs + [f];
    forall j | 0 <= j < |fs| && fs[j].engine == f.engine ensures Effective(cfg, fs[j]) < Effective(cfg, f) {
      assert Counts(cfg, fs[j]);
      assert FromBest(cfg, fs, best[f.engine]);
    }
    assert all[|fs|] == f && Best(cfg, all, |fs|);
  }

  /** A finding that counts takes its engine's place when it is the engine's first or strictly stronger. */
  function TakeVote(cfg: Config, best: map<string, Vote>, f: Finding): map<string, Vote> {
    if Counts(cfg, f) && (f.engine !in best || Effective(cfg, f) > best[f.engine].effective)
    then best[f.engine := VoteOf(cfg, f)] else best
  }

  lemma BestMapGrows(cfg: Config, fs: seq<Finding>, f: Finding, best: map<string, Vote>)
    requires IsBestMap(cfg, fs, best)
    ensures IsBestMap(cfg, fs + [f], TakeVote(cfg, best, f))
  {
    var next := TakeVote(cfg, best, f);
    forall e | e in next ensures next[e].engine == e && FromBest(cfg, fs + [f], next[e]) {
      if next != best && e == f.engine {
        BestArrives(cfg, fs, f, best);
      } else {
        assert e in best && FromBest(cfg, fs, best[e]);
        assert e == f.engine ==> Counts(cfg, f);
        BestStays(cfg, fs, f, best[e]);
      }
    }
  }

  method CollectBest(cfg: Config, fs: seq<Finding>) returns (best: map<string, Vote>)
    ensures IsBestMap(cfg, fs, best)
  {
    best := map[];
    var i := 0;
    while i < |fs|
      invariant 0 <= i <= |fs|
      invariant IsBestMap(cfg, fs[..i], best)
    {
      var f := fs[i];
      BestMapGrows(cfg, fs[..i], f, best);
      assert fs[..i + 1] == fs[..i] + [f];
      if Weight(cfg, f.engine) > 0.0 {
        if f.engine !in best || Effective(cfg, f) > best[f.engine].effective {
          best := best[f.engine := VoteOf(cfg, f)];
        }
      }
      i := i + 1;
    }
    assert fs[..|fs|] == fs;
  }

  /** `buildVotes`: the best votes, listed in any order, then sorted. */
  method BuildVotes(cfg: Config, fs: seq<Finding>) returns (votes: seq<Vote>)
    ensures IsBallot(cfg, fs, votes)
  {
    var best := CollectBest(cfg, fs);
    var listed := ListValues(best);
    forall a, b | 0 <= a < b < |listed| ensures Before(listed[a], listed[b]) || Before(listed[b], listed[a]) {
      LessTotal(listed[a].engine, listed[b].engine);
    }
    BeforeIsStrict();
    votes := Ordering.Sort(Before, listed);
    SortedBallot(cfg, fs, best, listed, votes);
  }

  lemma SortedBallot(cfg: Config, fs: seq<Finding>, best: map<string, Vote>, listed: seq<Vote>, votes: seq<Vote>)
    requires IsBestMap(cfg, fs, best)
    requires forall k :: 0 <= k < |listed| ==> listed[k].engine in best && listed[k] == best[listed[k].engine]
    requires forall e :: e in best ==> best[e] in listed
    requires Ordering.Sorted(Before, votes) && multiset(votes) == multiset(listed)
    ensures IsBallot(cfg, fs, votes)
  {
    forall k | 0 <= k < |votes| ensures FromBest(cfg, fs, votes[k]) {
      assert votes[k] in multiset(votes);
      assert votes[k] in listed;
    }
    forall j | 0 <= j < |fs| && Counts(cfg, fs[j]) ensures Voted(votes, fs[j].engine) {
      var v := best[fs[j].engine];
      assert v in multiset(listed);
      assert v in votes;
    }
  }

  /** Ranging over a map: every value once, in an order the caller does not control. */
  method ListValues(best: map<string, Vote>) returns (listed: seq<Vote>)
    requires forall e :: e in best ==> best[e].engine == e
    ensures forall k :: 0 <= k < |listed| ==> listed[k].engine in best && listed[k] == best[listed[k].engine]
    ensures forall e :: e in best ==> best[e] in listed
    ensures forall a, b :: 0 <= a < b < |listed| ==> listed[a].engine != listed[b].engine
  {
    listed := [];
    var keys := best.Keys;
    while keys != {}
      invariant keys <= best.Keys
      invariant forall k :: 0 <= k < |listed| ==> listed[k].engine in best && listed[k] == best[listed[k].engine]
      invariant forall k :: 0 <= k < |listed| ==> listed[k].engine !in keys
      invariant forall e :: e in best && e !in keys ==> best[e] in listed
      invariant forall a, b :: 0 <= a < b < |listed| ==> listed[a].engine != listed[b].engine
      decreases |keys|
    {
      var e :| e in keys;
      listed := listed + [best[e]];
      keys := keys - {e};
    }
  }

  // ---- what a ballot is, whatever the order ----

  lemma EnginesDiffer(cfg: Config, fs: seq<Finding>, votes: seq<Vote>, a: int, b: int)
    requires IsBallot(cfg, fs, votes) && 0 <= a < b < |votes|
    ensures votes[a].engine != votes[b].engine
  {
    assert FromBest(cfg, fs, votes[a]) && FromBest(cfg, fs, votes[b]);
    assert Before(votes[a], votes[b]);
    LessIrreflexive(votes[a].engine);
  }

  /** The findings determine the whole vote list, its descriptive fields included. */
  lemma BallotUnique(cfg: Config, fs: seq<Finding>, a: seq<Vote>, b: seq<Vote>)
    requires IsBallot(cfg, fs, a) && IsBallot(cfg, fs, b)
    ensures a == b
  {
    BallotIncluded(cfg, fs, a, b);
    BallotIncluded(cfg, fs, b, a);
    BeforeIsStrict();
    Ordering.SortedUnique(Before, a, b);
  }

  lemma BallotIncluded(cfg: Config, fs: seq<Finding>, a: seq<Vote>, b: seq<Vote>)
    requires IsBallot(cfg, fs, a) && IsBallot(cfg, fs, b)
    ensures forall k :: 0 <= k < |a| ==> a[k] in b
  {
    forall k | 0 <= k < |a| ensures a[k] in b {
      assert FromBest(cfg, fs, a[k]);
      var i :| 0 <= i < |fs| && Best(cfg, fs, i) && a[k] == VoteOf(cfg, fs[i]);
      assert Voted(b, fs[i].engine);
      var n :| 0 <= n < |b| && b[n].engine == fs[i].engine;
      assert FromBest(cfg, fs, b[n]);
      var j :| 0 <= j < |fs| && Best(cfg, fs, j) && b[n] == VoteOf(cfg, fs[j]);
      assert i == j;
    }
  }

  /** What decides: who voted, and with what effective weight. */
  datatype Share = Share(engine: string, effective: real)

  function Shares(votes: seq<Vote>): (s: seq<Share>)
    ensures |s| == |votes| && forall i :: 0 <= i < |votes| ==> s[i] == Share(votes[i].engine, votes[i].effective)
  {
    seq(|votes|, i requires 0 <= i < |votes| => Share(votes[i].engine, votes[i].effective))
  }

  predicate ShareBefore(a: Share, b: Share) {
    a.effective > b.effective || (a.effective == b.effective && Less(a.engine, b.engine))
  }

  lemma ShareBeforeIsStrict()
    ensures Ordering.StrictOrder(ShareBefore)
  {
    forall x: Share ensures !ShareBefore(x, x) { LessIrreflexive(x.engine); }
    forall x: Share, y: Share, z: Share | ShareBefore(x, y) && ShareBefore(y, z) ensures ShareBefore(x, z) {
      if Less(x.engine, y.engine) && Less(y.engine, z.engine) { LessTransitive(x.engine, y.engine, z.engine); }
    }
  }

  /** Each finding of `a` occurs in `b`. */
  predicate Within(a: seq<Finding>, b: seq<Finding>) {
    forall i :: 0 <= i < |a| ==> a[i] in b
  }

  /** For every vote cast on `a`, a vote of the same engine at least as strong is cast on any `b` that includes `a`. */
  lemma VoteGrows(cfg: Config, a: seq<Finding>, b: seq<Finding>, va: seq<Vote>, vb: seq<Vote>, k: int) returns (n: int)
    requires IsBallot(cfg, a, va) && IsBallot(cfg, b, vb) && Within(a, b) && 0 <= k < |va|
    ensures 0 <= n < |vb| && vb[n].engine == va[k].engine && vb[n].effective >= va[k].effective
    ensures Within(b, a) ==> vb[n].effective == va[k].effective
  {
    assert FromBest(cfg, a, va[k]);
    var i :| 0 <= i < |a| && Best(cfg, a, i) && va[k] == VoteOf(cfg, a[i]);
    var j :| 0 <= j < |b| && b[j] == a[i];
    assert Voted(vb, b[j].engine);
    n :| 0 <= n < |vb| && vb[n].engine == b[j].engine;
    assert FromBest(cfg, b, vb[n]);
    var m :| 0 <= m < |b| && Best(cfg, b, m) && vb[n] == VoteOf(cfg, b[m]);
    assert Effective(cfg, b[j]) <= Effective(cfg, b[m]);
    if Within(b, a) {
      assert b[m] in a;
      var p :| 0 <= p < |a| && a[p] == b[m];
      assert Effective(cfg, a[p]) <= Effective(cfg, a[i]);
    }
  }

  lemma SharesIncluded(cfg: Config, a: seq<Finding>, b: seq<Finding>, va: seq<Vote>, vb: seq<Vote>)
    requires IsBallot(cfg, a, va) && IsBallot(cfg, b, vb) && Within(a, b) && Within(b, a)
    ensures forall k :: 0 <= k < |va| ==> Shares(va)[k] in Shares(vb)
  {
    forall k | 0 <= k < |va| ensures Shares(va)[k] in Shares(vb) {
      var n := VoteGrows(cfg, a, b, va, vb, k);
      assert Shares(vb)[n] == Shares(va)[k];
    }
  }

  /** The same findings, in any order and with any repetition, give the same strictly ordered shares. */
  lemma SharesUnordered(cfg: Config, a: seq<Finding>, b: seq<Finding>, va: seq<Vote>, vb: seq<Vote>)
    requires IsBallot(cfg, a, va) && IsBallot(cfg, b, vb) && Within(a, b) && Within(b, a)
    ensures Shares(va) == Shares(vb)
  {
    SharesIncluded(cfg, a, b, va, vb);
    SharesIncluded(cfg, b, a, vb, va);
    SharesSorted(va);
    SharesSorted(vb);
    ShareBeforeIsStrict();
    Ordering.SortedUnique(ShareBefore, Shares(va), Shares(vb));
  }

  lemma SharesSorted(votes: seq<Vote>)
    requires Ordering.Sorted(Before, votes)
    ensures Ordering.Sorted(ShareBefore, Shares(votes))
  {
    forall i, j | 0 <= i < j < |votes| ensures ShareBefore(Shares(votes)[i], Shares(votes)[j]) {
      assert Before(votes[i], votes[j]);
    }
  }

  // ---- score and level ----

  function Sum(shares: seq<Share>): real {
    if shares == [] then 0.0 else Sum(shares[..|shares| - 1]) + shares[|shares| - 1].effective
  }

  /** `score`: the sum over a ceiling, not an average, so abstentions dilute nothing. */
  function Score(cfg: Config, sum: real): (s: real)
    ensures 0.0 <= s <= 1.0
  {
    var ceiling := if cfg.saturation <= 0.0 then 2.0 else cfg.saturation;
    var s := sum / ceiling;
    if s > 1.0 then 1.0 else if s < 0.0 then 0.0 else s
  }

  function LevelOf(cfg: Config, score: real): Level {
    if score >= cfg.confirmedAt then Confirmed
    else if score >= cfg.likelyAt then Likely
    else if score >= cfg.suspiciousAt then Suspicious
    else Clean
  }

  lemma {:induction false} SumWithout(shares: seq<Share>, i: nat)
    requires i < |shares|
    ensures Sum(shares) == Sum(shares[..i] + shares[i + 1..]) + shares[i].effective
    decreases |shares|
  {
    var n := |shares| - 1;
    var rest := shares[..i] + shares[i + 1..];
    if i < n {
      var front := shares[..n];
      SumWithout(front, i);
      assert rest[..n - 1] == front[..i] + front[i + 1..];
      assert rest[n - 1] == shares[n];
    } else {
      assert rest == shares[..n];
    }
  }

  predicate EachOnce(shares: seq<Share>) {
    forall i, j :: 0 <= i < j < |shares| ==> shares[i].engine != shares[j].engine
  }

  /** Every share of `a` has in `b` a share of the same engine that is no smaller. */
  predicate Covered(a: seq<Share>, b: seq<Share>) {
    forall k :: 0 <= k < |a| ==> Matched(a[k], b)
  }

  predicate Matched(x: Share, b: seq<Share>) {
    exists n :: 0 <= n < |b| && b[n].engine == x.engine && b[n].effective >= x.effective
  }

  /** Taking one share out of `b` keeps every match of the other engines. */
  lemma MatchedWithout(x: Share, b: seq<Share>, n: nat)
    requires n < |b| && Matched(x, b) && x.engine != b[n].engine
    ensures Matched(x, b[..n] + b[n + 1..])
  {
    var m :| 0 <= m < |b| && b[m].engine == x.engine && b[m].effective >= x.effective;
    assert (b[..n] + b[n + 1..])[if m < n then m else m - 1] == b[m];
  }

  lemma EachOnceWithout(b: seq<Share>, n: nat)
    requires n < |b| && EachOnce(b)
    ensures EachOnce(b[..n] + b[n + 1..])
  {
  }

  lemma {:induction false} SumGrows(a: seq<Share>, b: seq<Share>)
    requires EachOnce(a) && EachOnce(b) && Covered(a, b)
    requires forall n :: 0 <= n < |b| ==> b[n].effective >= 0.0
    ensures Sum(a) <= Sum(b)
    decreases |a|, |b|
  {
    if a == [] {
      if b != [] { SumGrows(a, b[..|b| - 1]); }
    } else {
      var a', last := a[..|a| - 1], a[|a| - 1];
      assert Matched(last, b);
      var n :| 0 <= n < |b| && b[n].engine == last.engine && b[n].effective >= last.effective;
      var b' := b[..n] + b[n + 1..];
      SumWithout(b, n);
      EachOnceWithout(b, n);
      forall k | 0 <= k < |a'| ensures Matched(a'[k], b') {
        assert a'[k] == a[k] && Matched(a[k], b);
        MatchedWithout(a[k], b, n);
      }
      SumGrows(a', b');
    }
  }

  lemma DivGrows(x: real, y: real, d: real)
    requires x <= y && d > 0.0
    ensures x / d <= y / d
  {
  }

  lemma ScoreGrows(cfg: Config, x: real, y: real)
    requires x <= y
    ensures Score(cfg, x) <= Score(cfg, y)
    ensures Rank(LevelOf(cfg, Score(cfg, x))) <= Rank(LevelOf(cfg, Score(cfg, y)))
  {
    DivGrows(x, y, if cfg.saturation <= 0.0 then 2.0 else cfg.saturation);
  }

  /** `validate.go` refuses a configuration with a multiplier outside 0..1. */
  predicate ValidMultipliers(cfg: Config) {
    0.0 <= cfg.signature <= 1.0 && 0.0 <= cfg.heuristic <= 1.0 && 0.0 <= cfg.anomaly <= 1.0
  }

  lemma EffectiveNonNegative(cfg: Config, f: Finding)
    requires ValidMultipliers(cfg) && Counts(cfg, f)
    ensures Effective(cfg, f) >= 0.0
  {
  }

  /** More findings never lower the score of a content, nor its level. */
  lemma BallotsGrow(cfg: Config, a: seq<Finding>, b: seq<Finding>, va: seq<Vote>, vb: seq<Vote>)
    requires ValidMultipliers(cfg) && IsBallot(cfg, a, va) && IsBallot(cfg, b, vb) && Within(a, b)
    ensures Score(cfg, Sum(Shares(va))) <= Score(cfg, Sum(Shares(vb)))
    ensures Rank(LevelOf(cfg, Score(cfg, Sum(Shares(va))))) <= Rank(LevelOf(cfg, Score(cfg, Sum(Shares(vb)))))
  {
    forall k | 0 <= k < |va| ensures Matched(Shares(va)[k], Shares(vb)) {
      var n := VoteGrows(cfg, a, b, va, vb, k);
      assert Shares(vb)[n].engine == Shares(va)[k].engine;
    }
    SharesEachOnce(cfg, a, va);
    SharesEachOnce(cfg, b, vb);
    forall n | 0 <= n < |vb| ensures Shares(vb)[n].effective >= 0.0 {
      assert FromBest(cfg, b, vb[n]);
      var i :| 0 <= i < |b| && Best(cfg, b, i) && vb[n] == VoteOf(cfg, b[i]);
      EffectiveNonNegative(cfg, b[i]);
    }
    SumGrows(Shares(va), Shares(vb));
    ScoreGrows(cfg, Sum(Shares(va)), Sum(Shares(vb)));
  }

  lemma SharesEachOnce(cfg: Config, fs: seq<Finding>, votes: seq<Vote>)
    requires IsBallot(cfg, fs, votes)
    ensures EachOnce(Shares(votes))
  {
    forall i, j | 0 <= i < j < |votes| ensures Shares(votes)[i].engine != Shares(votes)[j].engine {
      EnginesDiffer(cfg, fs, votes, i, j);
    }
  }

  // ---- no engine decides alone ----

  /** The sum `x` alone stays below the confirmed threshold. */
  predicate Insufficient(cfg: Config, x: real) {
    Score(cfg, x) < cfg.confirmedAt
  }

  /** Not even the strongest finding of any one engine reaches the confirmed level, nor does no finding at all. */
  ghost predicate SoloCannotConfirm(cfg: Config) {
    && cfg.confirmedAt > 0.0
    && forall e: string, c: Confidence :: Weight(cfg, e) > 0.0 ==> Insufficient(cfg, Strength(cfg, e, c))
  }

  ghost predicate ConfirmedNeedsTwo(cfg: Config) {
    forall fs: seq<Finding>, votes: seq<Vote> ::
      IsBallot(cfg, fs, votes) && LevelOf(cfg, Score(cfg, Sum(Shares(votes)))) == Confirmed ==> |votes| >= 2
  }

  lemma SoloSum(shares: seq<Share>)
    ensures |shares| == 0 ==> Sum(shares) == 0.0
    ensures |shares| == 1 ==> Sum(shares) == shares[0].effective
  {
    if |shares| == 1 { assert Sum(shares[..0]) == 0.0; }
  }

  lemma ScoreOfNothing(cfg: Config)
    ensures Score(cfg, 0.0) == 0.0
  {
  }

  lemma SoloVote(cfg: Config, fs: seq<Finding>, votes: seq<Vote>)
    requires SoloCannotConfirm(cfg) && IsBallot(cfg, fs, votes) && |votes| == 1
    ensures Insufficient(cfg, votes[0].effective)
  {
    assert FromBest(cfg, fs, votes[0]);
    var i :| 0 <= i < |fs| && Best(cfg, fs, i) && votes[0] == VoteOf(cfg, fs[i]);
    assert Insufficient(cfg, Strength(cfg, fs[i].engine, fs[i].confidence));
  }

  lemma FewVotes(cfg: Config, fs: seq<Finding>, votes: seq<Vote>)
    requires SoloCannotConfirm(cfg) && IsBallot(cfg, fs, votes) && |votes| < 2
    ensures Insufficient(cfg, Sum(Shares(votes)))
  {
    SoloSum(Shares(votes));
    if |votes| == 0 {
      ScoreOfNothing(cfg);
    } else {
      SoloVote(cfg, fs, votes);
    }
  }

  lemma SingleBallot(cfg: Config, f: Finding)
    requires Counts(cfg, f)
    ensures IsBallot(cfg, [f], [VoteOf(cfg, f)])
  {
    var fs, votes := [f], [VoteOf(cfg, f)];
    assert Best(cfg, fs, 0);
    assert FromBest(cfg, fs, votes[0]);
    assert votes[0].engine == f.engine;
  }

  /** When some engine's strongest vote suffices, a single finding of it is confirmed on its own. */
  lemma SoloWitness(cfg: Config) returns (fs: seq<Finding>, votes: seq<Vote>)
    requires !SoloCannotConfirm(cfg)
    ensures IsBallot(cfg, fs, votes) && |votes| < 2 && !Insufficient(cfg, Sum(Shares(votes)))
  {
    if cfg.confirmedAt <= 0.0 {
      ScoreOfNothing(cfg);
      fs, votes := [], [];
    } else {
      var e: string, c: Confidence :| Weight(cfg, e) > 0.0 && !Insufficient(cfg, Strength(cfg, e, c));
      var f := Finding("", Malware, e, "", "", "", "", c);
      fs, votes := [f], [VoteOf(cfg, f)];
      SingleBallot(cfg, f);
      SoloSum(Shares(votes));
    }
  }

  /** A confirmed level takes two engines, whatever was found, exactly when no engine's strongest vote suffices. */
  lemma TwoEnginesExactly(cfg: Config)
    ensures ConfirmedNeedsTwo(cfg) <==> SoloCannotConfirm(cfg)
  {
    if SoloCannotConfirm(cfg) {
      forall fs: seq<Finding>, votes: seq<Vote> |
        IsBallot(cfg, fs, votes) && LevelOf(cfg, Score(cfg, Sum(Shares(votes)))) == Confirmed
        ensures |votes| >= 2
      {
        if |votes| < 2 { FewVotes(cfg, fs, votes); }
      }
    } else {
      var fs, votes := SoloWitness(cfg);
      assert LevelOf(cfg, Score(cfg, Sum(Shares(votes)))) == Confirmed;
    }
  }

  /** The shipped weights, ceiling, thresholds and multipliers (internal/config/defaults.go). */
  function DefaultConfig(): Config {
    Config(map["wp-checksums" := 1.5, "amwscan" := 0.8, "php-malware-finder" := 0.8, "maldet" := 1.0],
           2.0, 0.9, 0.6, 0.3, 1.0, 0.8, 0.55)
  }

  lemma MulNonNegative(a: real, b: real)
    requires a >= 0.0 && b >= 0.0
    ensures a * b >= 0.0
  {
  }

  lemma ProductBound(w: real, m: real)
    requires 0.0 < w <= 1.5 && 0.0 <= m <= 1.0
    ensures w * m <= 1.5
  {
    MulNonNegative(w, 1.0 - m);
    assert w * (1.0 - m) == w - w * m;
  }

  lemma DefaultScore(cfg: Config, x: real)
    requires cfg.saturation == 2.0 && cfg.confirmedAt == 0.9 && x <= 1.5
    ensures Insufficient(cfg, x)
  {
  }

  /** Under the defaults no engine can confirm alone: 1.5 x 1.0 stays below 0.9 x 2.0. */
  lemma DefaultsNeedTwo(cfg: Config)
    requires cfg == DefaultConfig()
    ensures ValidMultipliers(cfg) && SoloCannotConfirm(cfg)
  {
    assert forall e :: e in cfg.weights ==> 0.0 < cfg.weights[e] <= 1.5;
    forall e: string, c: Confidence | Weight(cfg, e) > 0.0 ensures Insufficient(cfg, Strength(cfg, e, c)) {
      ProductBound(Weight(cfg, e), Multiplier(cfg, c));
      DefaultScore(cfg, Strength(cfg, e, c));
    }
  }
}
