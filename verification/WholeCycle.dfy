/**
 Whole cycles: the action loop on the vault itself, and the baseline's rule on the reports
 themselves. What the parts guarantee, composed.
 */
module WholeCycle {
  import opened Calendar
  import opened Schema
  import opened Verdicts
  import opened Consolidation
  import opened Coverage
  import opened Acting
  import Baseline
  import BaselineRuns
  import Vault
  import VaultSafety

  // ---- acting on the vault ----

  /** The text of a digest, and what the vault makes of an expected text. */
  ghost predicate Expects(digest: Vault.Bytes -> string, wanted: string -> Vault.Sha) {
    && (forall sha :: sha != "" ==> wanted(sha) != Vault.NoSha)
    && (forall sha, content :: sha != "" ==> (wanted(sha) == Vault.ShaOf(content) <==> digest(content) == sha))
  }

  /**
   What one quarantine draws: its reference, where the copy goes, until when it is kept, and how its
   calls go; and what others have made of the site by the time it starts.
   */
  datatype Draw = Draw(ref: string, vaultPath: string, retention: Vault.Time, fates: Vault.Fates, others: VaultSafety.Op)

  /** The roots of the vault, what it makes of an expected digest, and what the quarantine of each verdict draws. */
  datatype Plan = Plan(roots: seq<string>, wanted: string -> Vault.Sha, draws: nat -> Draw)

  /** Others leave a site whose names lead to files that exist. */
  ghost predicate OthersSound(draws: nat -> Draw) {
    forall i :: draws(i).others.DoOthers? && forall w :: VaultSafety.SoundDisk(VaultSafety.Step(w, draws(i).others))
  }

  method Meanwhile(p: Vault.Process, others: VaultSafety.Op)
    requires others.DoOthers?
    modifies p
    ensures p.world == VaultSafety.Step(old(p.world), others)
  {
    p.world := p.world.(site := others.site, inodes := others.inodes, nextIno := others.nextIno);
  }

  function RequestFor(vs: seq<Verdict>, plan: Plan, k: nat): Vault.Request
    requires k < |vs|
  {
    var d := plan.draws(k);
    Vault.Request(vs[k].path, plan.wanted(vs[k].sha), d.ref, d.vaultPath, d.retention, plan.roots)
  }

  /** What happens to the vault and the site while the first `n` verdicts are acted on. */
  function Calls(vs: seq<Verdict>, allowed: bool, plan: Plan, n: nat): seq<VaultSafety.Op>
    requires n <= |vs|
  {
    if n == 0 then []
    else
      var before, d := Calls(vs, allowed, plan, n - 1), plan.draws(n - 1);
      if VaultCalled(vs[n - 1], allowed) then before + [d.others] + [VaultSafety.DoQuarantine(RequestFor(vs, plan, n - 1), d.fates)]
      else before
  }

  /** The state in which the vault is called for verdict `k`. */
  function Before(w: Vault.World, vs: seq<Verdict>, allowed: bool, plan: Plan, k: nat): Vault.World
    requires k < |vs|
  {
    VaultSafety.Step(VaultSafety.Run(w, Calls(vs, allowed, plan, k)), plan.draws(k).others)
  }

  /** What the vault answers when it is called for verdict `k`. */
  function AnswerAt(w: Vault.World, vs: seq<Verdict>, allowed: bool, plan: Plan, k: nat): Vault.Outcome
    requires k < |vs|
  {
    Vault.Quarantine(Before(w, vs, allowed, plan, k), RequestFor(vs, plan, k), plan.draws(k).fates).1
  }

  /** The verdicts, when the first `n` have been acted on: each as the vault answered. */
  function Ended(w: Vault.World, vs: seq<Verdict>, allowed: bool, plan: Plan, n: nat): (after: seq<Verdict>)
    requires n <= |vs|
    ensures |after| == |vs|
    ensures forall k :: 0 <= k < n ==> after[k] == Acted(vs[k], allowed, Answer(AnswerAt(w, vs, allowed, plan, k)))
    ensures forall k :: n <= k < |vs| ==> after[k] == vs[k]
  {
    seq(|vs|, k requires 0 <= k < |vs| =>
      if k < n then Acted(vs[k], allowed, Answer(AnswerAt(w, vs, allowed, plan, k))) else vs[k])
  }

  lemma EndedNext(w: Vault.World, vs: seq<Verdict>, allowed: bool, plan: Plan, n: nat)
    requires n < |vs|
    ensures Ended(w, vs, allowed, plan, n + 1) ==
      Ended(w, vs, allowed, plan, n)[n := Acted(vs[n], allowed, Answer(AnswerAt(w, vs, allowed, plan, n)))]
    ensures Ended(w, vs, allowed, plan, n)[n] == vs[n]
  {
    hide AnswerAt, Acted;
  }

  /** In none of the first `n` calls has the process died. */
  ghost predicate NoneDied(w: Vault.World, vs: seq<Verdict>, allowed: bool, plan: Plan, n: nat)
    requires n <= |vs|
  {
    forall k :: 0 <= k < n && VaultCalled(vs[k], allowed) ==> AnswerAt(w, vs, allowed, plan, k) != Vault.Died
  }

  /**
   The loop went through the first `done` verdicts, to the end or to the first call in which the
   process died: the vault is what the calls made of it, and every verdict ends as it was answered.
   */
  ghost predicate ActedOn(w: Vault.World, w': Vault.World, vs: seq<Verdict>, after: seq<Verdict>, allowed: bool, plan: Plan,
                          died: bool, done: nat) {
    && done <= |vs| && w' == VaultSafety.Run(w, Calls(vs, allowed, plan, done))
    && if died then
         && done > 0 && NoneDied(w, vs, allowed, plan, done - 1) && after == Ended(w, vs, allowed, plan, done - 1)
         && VaultCalled(vs[done - 1], allowed) && AnswerAt(w, vs, allowed, plan, done - 1) == Vault.Died
       else
         done == |vs| && NoneDied(w, vs, allowed, plan, done) && after == Ended(w, vs, allowed, plan, done)
  }

  /** How `quarantineOne` reads the vault's answer. */
  function Answer(o: Vault.Outcome): Outcome {
    match o
    case Ok => Moved
    case Refused(why) => if why == Vault.HashMismatch then ChangedSinceScan else CouldNotMove
    case Died => CouldNotMove
  }

  /** The bytes were taken from the path of one of the verdicts the vault is called for, and have its digest. */
  ghost predicate TakenFor(vs: seq<Verdict>, allowed: bool, digest: Vault.Bytes -> string, taken: Vault.Taken) {
    exists k :: 0 <= k < |vs| && VaultCalled(vs[k], allowed) && taken.path == vs[k].path && digest(taken.file.content) == vs[k].sha
  }

  /** Everything that has been moved since was moved for a verdict. */
  ghost predicate MovedFor(before: map<string, Vault.Taken>, after: map<string, Vault.Taken>, vs: seq<Verdict>, allowed: bool,
                           digest: Vault.Bytes -> string) {
    forall r :: r in after && !(r in before && before[r] == after[r]) ==> TakenFor(vs, allowed, digest, after[r])
  }

  lemma OneMoved(before: map<string, Vault.Taken>, w: Vault.World, vs: seq<Verdict>, allowed: bool, k: nat, plan: Plan,
                 digest: Vault.Bytes -> string)
    requires VaultSafety.SoundDisk(w) && VaultSafety.Recorded(w) && Expects(digest, plan.wanted)
    requires k < |vs| && VaultCalled(vs[k], allowed) && vs[k].sha != "" && MovedFor(before, w.moved, vs, allowed, digest)
    ensures MovedFor(before, Vault.Quarantine(w, RequestFor(vs, plan, k), plan.draws(k).fates).0.moved, vs, allowed, digest)
  {
    hide Vault.Quarantine, VaultSafety.TouchesOnly, VaultSafety.KeptOrMoved, VaultSafety.Betrayed;
    var rq, d := RequestFor(vs, plan, k), plan.draws(k);
    var after := Vault.Quarantine(w, rq, d.fates).0.moved;
    VaultSafety.QuarantineNeverLoses(w, rq, d.fates);
    VaultSafety.OnlyExpectedMoves(w, rq, d.fates);
    forall r | r in after && !(r in before && before[r] == after[r]) ensures TakenFor(vs, allowed, digest, after[r]) {
      if after == w.moved || r != rq.ref {
        assert r in w.moved && w.moved[r] == after[r];
      } else {
        assert digest(after[r].file.content) == vs[k].sha;
      }
    }
  }

  lemma StillMoved(before: map<string, Vault.Taken>, w: Vault.World, others: VaultSafety.Op, vs: seq<Verdict>, allowed: bool,
                   digest: Vault.Bytes -> string)
    requires MovedFor(before, w.moved, vs, allowed, digest) && others.DoOthers? && VaultSafety.Recorded(w)
    ensures MovedFor(before, VaultSafety.Step(w, others).moved, vs, allowed, digest)
    ensures VaultSafety.Recorded(VaultSafety.Step(w, others))
  {
    VaultSafety.RecordedSame(w, VaultSafety.Step(w, others));
  }

  /**
   What such calls keep: under fresh references and unbetrayed, the invariant holds at the end, and
   every file they have moved is recorded as active and comes back whole once its path is free.
   */
  ghost predicate NothingLost(w: Vault.World, calls: seq<VaultSafety.Op>) {
    var w' := VaultSafety.Run(w, calls);
    VaultSafety.Inv(w) && VaultSafety.PossibleRun(w, calls) && VaultSafety.TruthfulRun(w, calls) ==>
      VaultSafety.Inv(w') && forall r :: VaultSafety.NewlyMoved(w, w', r) ==> ComesBack(w', r)
  }

  ghost predicate ComesBack(w: Vault.World, ref: string) {
    && VaultSafety.Answers(w, ref)
    && (w.moved[ref].path !in w.site ==> forall now: Vault.Time ::
          Vault.Restore(w, ref, now, Vault.ALL_WORK).1 == Vault.Ok
          && VaultSafety.BackAgain(w, Vault.Restore(w, ref, now, Vault.ALL_WORK).0, ref))
  }

  lemma CallsKeep(w: Vault.World, calls: seq<VaultSafety.Op>)
    requires VaultSafety.OnlyQuarantines(calls)
    ensures NothingLost(w, calls)
  {
    hide VaultSafety.Run, VaultSafety.Inv, Vault.Restore, VaultSafety.BackAgain;
    var w' := VaultSafety.Run(w, calls);
    if VaultSafety.Inv(w) && VaultSafety.PossibleRun(w, calls) && VaultSafety.TruthfulRun(w, calls) {
      VaultSafety.NewlyMovedAnswer(w, calls);
      forall r | VaultSafety.NewlyMoved(w, w', r) ensures ComesBack(w', r) {
        forall now: Vault.Time { VaultSafety.RestoreSucceedsExactly(w', r, now); }
      }
    }
  }

  lemma {:induction false} CallsAreQuarantines(vs: seq<Verdict>, allowed: bool, plan: Plan, n: nat)
    requires n <= |vs| && OthersSound(plan.draws)
    ensures VaultSafety.OnlyQuarantines(Calls(vs, allowed, plan, n))
  {
    if n > 0 {
      CallsAreQuarantines(vs, allowed, plan, n - 1);
      assert plan.draws(n - 1).others.DoOthers?;
    }
  }

  /** One more call is one more step of others and one more quarantine. */
  lemma OneMoreCall(w: Vault.World, vs: seq<Verdict>, allowed: bool, plan: Plan, k: nat)
    requires k < |vs|
    ensures var next := VaultSafety.Run(w, Calls(vs, allowed, plan, k + 1));
      if VaultCalled(vs[k], allowed)
      then next == Vault.Quarantine(Before(w, vs, allowed, plan, k), RequestFor(vs, plan, k), plan.draws(k).fates).0
      else next == VaultSafety.Run(w, Calls(vs, allowed, plan, k))
  {
    hide VaultSafety.Run, Vault.Quarantine;
    var calls, d := Calls(vs, allowed, plan, k), plan.draws(k);
    VaultSafety.RunOneMore(w, calls, d.others);
    VaultSafety.RunOneMore(w, calls + [d.others], VaultSafety.DoQuarantine(RequestFor(vs, plan, k), d.fates));
  }

  /** No draw takes the vault path of an active record or of another draw. */
  ghost predicate FreshDraws(w: Vault.World, draws: nat -> Draw) {
    && (forall k, r :: VaultSafety.IsActive(w, r) ==> w.items[r].vaultPath != draws(k).vaultPath)
    && forall j, k :: j != k ==> draws(j).vaultPath != draws(k).vaultPath
  }

  /** In no draw does a removal that worked report failure and is then given up. */
  ghost predicate TruthfulDraws(draws: nat -> Draw) {
    forall k :: !(VaultSafety.FalseReport(draws(k).fates) && VaultSafety.GivenUp(draws(k).fates))
  }

  /** The vault path of the record is an active one's of the start, or one of the first `n` draws'. */
  ghost predicate KnownPath(w: Vault.World, w': Vault.World, draws: nat -> Draw, n: nat, ref: string)
    requires ref in w'.items
  {
    || (VaultSafety.IsActive(w, ref) && w'.items[ref].vaultPath == w.items[ref].vaultPath)
    || exists j :: 0 <= j < n && w'.items[ref].vaultPath == draws(j).vaultPath
  }

  ghost predicate KnownPaths(w: Vault.World, w': Vault.World, draws: nat -> Draw, n: nat) {
    forall r :: VaultSafety.IsActive(w', r) ==> KnownPath(w, w', draws, n, r)
  }

  lemma KnownIsFresh(w: Vault.World, w': Vault.World, draws: nat -> Draw, n: nat)
    requires FreshDraws(w, draws) && KnownPaths(w, w', draws, n)
    ensures VaultSafety.FreshPath(w', draws(n).vaultPath)
  {
    forall r | VaultSafety.IsActive(w', r) ensures w'.items[r].vaultPath != draws(n).vaultPath {
      assert KnownPath(w, w', draws, n, r);
    }
  }

  lemma KnownAfter(w: Vault.World, mid: Vault.World, rq: Vault.Request, fates: Vault.Fates, draws: nat -> Draw, n: nat)
    requires KnownPaths(w, mid, draws, n) && rq.vaultPath == draws(n).vaultPath
    requires VaultSafety.SoundDisk(mid) && VaultSafety.Recorded(mid)
    ensures KnownPaths(w, Vault.Quarantine(mid, rq, fates).0, draws, n + 1)
  {
    hide Vault.Quarantine, VaultSafety.SoundDisk, VaultSafety.Recorded;
    var w' := Vault.Quarantine(mid, rq, fates).0;
    forall r | VaultSafety.IsActive(w', r) ensures KnownPath(w, w', draws, n + 1, r) {
      VaultSafety.RecordsOwnPath(mid, rq, fates, r);
      if VaultSafety.IsActive(mid, r) { assert KnownPath(w, mid, draws, n, r); }
    }
  }

  /**
   The hypotheses under which nothing is lost, in terms of the draws alone: with fresh and truthful
   draws every call finds its vault path free of active records, and none is betrayed.
   */
  lemma {:induction false} FreshDrawsSuffice(w: Vault.World, vs: seq<Verdict>, allowed: bool, plan: Plan, n: nat)
    requires n <= |vs| && VaultSafety.SoundDisk(w) && VaultSafety.Recorded(w)
    requires OthersSound(plan.draws) && FreshDraws(w, plan.draws)
    ensures var calls := Calls(vs, allowed, plan, n);
      && VaultSafety.PossibleRun(w, calls) && (TruthfulDraws(plan.draws) ==> VaultSafety.TruthfulRun(w, calls))
      && VaultSafety.SoundDisk(VaultSafety.Run(w, calls)) && VaultSafety.Recorded(VaultSafety.Run(w, calls))
      && KnownPaths(w, VaultSafety.Run(w, calls), plan.draws, n)
  {
    if n == 0 {
      VaultSafety.RunOfNothing(w, []);
    } else {
      hide VaultSafety.SoundDisk, VaultSafety.Recorded, VaultSafety.Run, VaultSafety.PossibleRun, VaultSafety.TruthfulRun, KnownPaths;
      FreshDrawsSuffice(w, vs, allowed, plan, n - 1);
      if VaultCalled(vs[n - 1], allowed) {
        OneFreshCall(w, vs, allowed, plan, n - 1);
      } else {
        KnownLonger(w, VaultSafety.Run(w, Calls(vs, allowed, plan, n)), plan.draws, n - 1);
      }
    }
  }

  lemma KnownLonger(w: Vault.World, w': Vault.World, draws: nat -> Draw, n: nat)
    requires KnownPaths(w, w', draws, n)
    ensures KnownPaths(w, w', draws, n + 1)
  {
    forall r | VaultSafety.IsActive(w', r) ensures KnownPath(w, w', draws, n + 1, r) { assert KnownPath(w, w', draws, n, r); }
  }

  lemma OneFreshCall(w: Vault.World, vs: seq<Verdict>, allowed: bool, plan: Plan, k: nat)
    requires k < |vs| && VaultCalled(vs[k], allowed) && OthersSound(plan.draws) && FreshDraws(w, plan.draws)
    requires var calls := Calls(vs, allowed, plan, k);
      && VaultSafety.PossibleRun(w, calls) && (TruthfulDraws(plan.draws) ==> VaultSafety.TruthfulRun(w, calls))
      && VaultSafety.Recorded(VaultSafety.Run(w, calls)) && KnownPaths(w, VaultSafety.Run(w, calls), plan.draws, k)
    ensures var calls := Calls(vs, allowed, plan, k + 1);
      && VaultSafety.PossibleRun(w, calls) && (TruthfulDraws(plan.draws) ==> VaultSafety.TruthfulRun(w, calls))
      && VaultSafety.SoundDisk(VaultSafety.Run(w, calls)) && VaultSafety.Recorded(VaultSafety.Run(w, calls))
      && KnownPaths(w, VaultSafety.Run(w, calls), plan.draws, k + 1)
  {
    hide VaultSafety.SoundDisk, VaultSafety.Recorded, VaultSafety.Run, VaultSafety.PossibleRun, VaultSafety.TruthfulRun,
      KnownPaths, FreshDraws, Vault.Quarantine, VaultSafety.FreshPath;
    var calls, d, rq := Calls(vs, allowed, plan, k), plan.draws(k), RequestFor(vs, plan, k);
    var here, before := VaultSafety.Run(w, calls), Before(w, vs, allowed, plan, k);
    assert before == VaultSafety.Step(here, d.others) && d.others.DoOthers?;
    OneMoreCall(w, vs, allowed, plan, k);
    VaultSafety.RunOneMore(w, calls, d.others);
    VaultSafety.PossibleOneMore(w, calls, d.others);
    VaultSafety.RecordedSame(here, before);
    KnownSame(w, here, before, plan.draws, k);
    KnownIsFresh(w, before, plan.draws, k);
    VaultSafety.PossibleOneMore(w, calls + [d.others], VaultSafety.DoQuarantine(rq, d.fates));
    VaultSafety.QuarantineStaysSound(before, rq, d.fates);
    KnownAfter(w, before, rq, d.fates, plan.draws, k);
  }

  lemma KnownSame(w: Vault.World, a: Vault.World, b: Vault.World, draws: nat -> Draw, n: nat)
    requires a.items == b.items && KnownPaths(w, a, draws, n)
    ensures KnownPaths(w, b, draws, n)
  {
    forall r | VaultSafety.IsActive(b, r) ensures KnownPath(w, b, draws, n, r) { assert VaultSafety.IsActive(a, r) && KnownPath(w, a, draws, n, r); }
  }

  /** Where the loop stands after the first `n` verdicts, the process being alive. */
  ghost predicate Stands(w: Vault.World, now: Vault.World, vs: seq<Verdict>, after: seq<Verdict>, allowed: bool, plan: Plan,
                         digest: Vault.Bytes -> string, n: nat) {
    && n <= |vs| && NoneDied(w, vs, allowed, plan, n) && after == Ended(w, vs, allowed, plan, n)
    && Leaves(w, now, vs, allowed, plan, digest, n)
  }

  /** What the calls for the first `n` verdicts have made of the vault. */
  ghost predicate Leaves(w: Vault.World, now: Vault.World, vs: seq<Verdict>, allowed: bool, plan: Plan,
                         digest: Vault.Bytes -> string, n: nat) {
    && n <= |vs| && now == VaultSafety.Run(w, Calls(vs, allowed, plan, n))
    && VaultSafety.SoundDisk(now) && VaultSafety.Recorded(now) && MovedFor(w.moved, now.moved, vs, allowed, digest)
  }

  lemma StartsOut(w: Vault.World, vs: seq<Verdict>, allowed: bool, plan: Plan, digest: Vault.Bytes -> string)
    requires VaultSafety.SoundDisk(w) && VaultSafety.Recorded(w)
    ensures Stands(w, w, vs, vs, allowed, plan, digest, 0)
  {
    VaultSafety.RunOfNothing(w, []);
  }

  /** A verdict for which the vault is not called ends the same whatever the answer would be. */
  lemma PassesBy(w: Vault.World, now: Vault.World, vs: seq<Verdict>, after: seq<Verdict>, allowed: bool, plan: Plan,
                 digest: Vault.Bytes -> string, n: nat)
    requires n < |vs| && !VaultCalled(vs[n], allowed) && Stands(w, now, vs, after, allowed, plan, digest, n)
    ensures |after| == |vs| && after[n] == vs[n]
    ensures var v := vs[n];
      var v' := if v.action == NoAction && Actionable(v) then v.(action := Recommended) else v;
      Stands(w, now, vs, after[n := v'], allowed, plan, digest, n + 1)
  {
    hide VaultSafety.SoundDisk, VaultSafety.Recorded, MovedFor, VaultSafety.Run, Calls, AnswerAt, Ended;
    OneMoreCall(w, vs, allowed, plan, n);
    EndedNext(w, vs, allowed, plan, n);
  }

  /** One for which it is called and answers. */
  lemma Answered(w: Vault.World, now: Vault.World, vs: seq<Verdict>, after: seq<Verdict>, allowed: bool, plan: Plan,
                 digest: Vault.Bytes -> string, n: nat)
    requires n < |vs| && VaultCalled(vs[n], allowed) && NoneDied(w, vs, allowed, plan, n)
    requires after == Ended(w, vs, allowed, plan, n) && Leaves(w, now, vs, allowed, plan, digest, n + 1)
    requires AnswerAt(w, vs, allowed, plan, n) != Vault.Died
    ensures after[n] == vs[n]
    ensures Stands(w, now, vs, after[n := vs[n].(action := ActionFor(Answer(AnswerAt(w, vs, allowed, plan, n))))], allowed, plan, digest, n + 1)
  {
    hide Leaves, AnswerAt, Ended;
    EndedNext(w, vs, allowed, plan, n);
  }

  /** The call for verdict `k`, after whatever others have done to the site. */
  method CallVault(ghost vs: seq<Verdict>, ghost k: nat, v: Verdict, ghost allowed: bool, p: Vault.Process, d: Draw, plan: Plan,
                   ghost w: Vault.World, ghost digest: Vault.Bytes -> string)
    returns (o: Vault.Outcome)
    requires k < |vs| && v == vs[k] && VaultCalled(v, allowed) && v.sha != "" && d == plan.draws(k)
    requires Expects(digest, plan.wanted) && OthersSound(plan.draws) && Leaves(w, p.world, vs, allowed, plan, digest, k)
    modifies p
    ensures Leaves(w, p.world, vs, allowed, plan, digest, k + 1) && o == AnswerAt(w, vs, allowed, plan, k)
  {
    hide Vault.Quarantine, VaultSafety.SoundDisk, VaultSafety.Recorded, VaultSafety.Run, Expects, MovedFor, Calls;
    OneMoreCall(w, vs, allowed, plan, k);
    StillMoved(w.moved, p.world, d.others, vs, allowed, digest);
    Meanwhile(p, d.others);
    VaultSafety.QuarantineStaysSound(p.world, RequestFor(vs, plan, k), d.fates);
    OneMoved(w.moved, p.world, vs, allowed, k, plan, digest);
    o := p.QuarantineFile(Vault.Request(v.path, plan.wanted(v.sha), d.ref, d.vaultPath, d.retention, plan.roots), d.fates);
  }

  /** `quarantineOne`: the verdict is rewritten as the vault answers, unless the process dies in the call. */
  method QuarantineOne(verdicts: array<Verdict>, k: nat, ghost vs: seq<Verdict>, ghost allowed: bool, p: Vault.Process, plan: Plan,
                       ghost w: Vault.World, ghost digest: Vault.Bytes -> string)
    returns (died: bool)
    requires k < |vs| == verdicts.Length && VaultCalled(vs[k], allowed) && vs[k].sha != ""
    requires Expects(digest, plan.wanted) && OthersSound(plan.draws)
    requires Stands(w, p.world, vs, verdicts[..], allowed, plan, digest, k)
    modifies verdicts, p
    ensures if died then Finished(w, p.world, vs, verdicts[..], allowed, plan, digest, true, k + 1)
            else Stands(w, p.world, vs, verdicts[..], allowed, plan, digest, k + 1)
  {
    hide Expects, OthersSound, AnswerAt, Leaves, Ended;
    EndedNext(w, vs, allowed, plan, k);
    var o := CallVault(vs, k, verdicts[k], allowed, p, plan.draws(k), plan, w, digest);
    if o.Died? { return true; }
    Answered(w, p.world, vs, verdicts[..], allowed, plan, digest, k);
    verdicts[k] := verdicts[k].(action := ActionFor(Answer(o)));
    died := false;
  }

  lemma StillThere(w: Vault.World, now: Vault.World, vs: seq<Verdict>, after: seq<Verdict>, allowed: bool, plan: Plan,
                   digest: Vault.Bytes -> string, n: nat)
    requires n < |vs| && Stands(w, now, vs, after, allowed, plan, digest, n)
    ensures |after| == |vs| && after[n] == vs[n]
  {
  }

  /** The loop is over: the process died in the last call, or all verdicts were passed. */
  ghost predicate Finished(w: Vault.World, w': Vault.World, vs: seq<Verdict>, after: seq<Verdict>, allowed: bool, plan: Plan,
                           digest: Vault.Bytes -> string, died: bool, done: nat) {
    if died then
      && 0 < done <= |vs| && VaultCalled(vs[done - 1], allowed) && AnswerAt(w, vs, allowed, plan, done - 1) == Vault.Died
      && NoneDied(w, vs, allowed, plan, done - 1) && after == Ended(w, vs, allowed, plan, done - 1)
      && Leaves(w, w', vs, allowed, plan, digest, done)
    else done == |vs| && Stands(w, w', vs, after, allowed, plan, digest, done)
  }

  /** The loop of `act`, once it is decided whether acting is allowed. */
  method ActOnEach(verdicts: array<Verdict>, ghost vs: seq<Verdict>, allowed: bool, p: Vault.Process, plan: Plan,
                   ghost w: Vault.World, ghost digest: Vault.Bytes -> string)
    returns (died: bool, ghost done: nat)
    requires verdicts[..] == vs && forall k :: 0 <= k < |vs| ==> vs[k].sha != ""
    requires Expects(digest, plan.wanted) && OthersSound(plan.draws) && Stands(w, p.world, vs, vs, allowed, plan, digest, 0)
    modifies verdicts, p
    ensures Finished(w, p.world, vs, verdicts[..], allowed, plan, digest, died, done)
  {
    hide Stands, Leaves, Expects, OthersSound, AnswerAt, NoneDied, Ended;
    died, done := false, 0;
    var i := 0;
    while i < verdicts.Length
      invariant 0 <= i <= verdicts.Length && done == i && !died
      invariant Stands(w, p.world, vs, verdicts[..], allowed, plan, digest, i)
    {
      StillThere(w, p.world, vs, verdicts[..], allowed, plan, digest, i);
      ghost var here := verdicts[..];
      var v := verdicts[i];
      done := i + 1;
      if v.action == NoAction && Actionable(v) && allowed {
        died := QuarantineOne(verdicts, i, vs, allowed, p, plan, w, digest);
        if died { return; }
      } else {
        PassesBy(w, p.world, vs, here, allowed, plan, digest, i);
        if v.action == NoAction && Actionable(v) {
          verdicts[i] := v.(action := Recommended);
        } else {
          assert here[i := v] == here;
        }
      }
      i := i + 1;
    }
  }

  /**
   `act`, with the vault it calls: the loop calls the vault for the verdicts it may act on, in turn,
   and for no others, and each verdict ends as the vault answered, up to the first death. Whatever
   fails and wherever it dies, every file that is moved is the file of a verdict the vault was
   called for, moved from its path, with the very content whose digest was judged, for all that
   others do to the site between the calls; and nothing moved is lost.
   */
  method ActOnVault(verdicts: array<Verdict>, g: General, now: Instant, dryRun: bool, p: Vault.Process, plan: Plan,
                    ghost digest: Vault.Bytes -> string)
    returns (died: bool, ghost done: nat)
    requires VaultSafety.SoundDisk(p.world) && VaultSafety.Recorded(p.world)
    requires Expects(digest, plan.wanted) && OthersSound(plan.draws)
    requires forall k :: 0 <= k < verdicts.Length ==> verdicts[k].sha != ""
    modifies verdicts, p
    ensures var vs, allowed := old(verdicts[..]), AutomaticActionAllowed(g, now) && !dryRun;
      && ActedOn(old(p.world), p.world, vs, verdicts[..], allowed, plan, died, done)
      && MovedFor(old(p.world.moved), p.world.moved, vs, allowed, digest)
      && NothingLost(old(p.world), Calls(vs, allowed, plan, done))
    ensures VaultSafety.SoundDisk(p.world) && VaultSafety.Recorded(p.world)
  {
    var allowed := AutomaticActionAllowed(g, now) && !dryRun;
    ghost var vs, w := verdicts[..], p.world;
    hide Stands, Finished, ActedOn, MovedFor, Expects, OthersSound, NothingLost, AutomaticActionAllowed, VaultSafety.SoundDisk, VaultSafety.Recorded;
    StartsOut(w, vs, allowed, plan, digest);
    died, done := ActOnEach(verdicts, vs, allowed, p, plan, w, digest);
    EndsUp(w, p.world, vs, verdicts[..], allowed, plan, digest, died, done);
  }

  lemma EndsUp(w: Vault.World, w': Vault.World, vs: seq<Verdict>, after: seq<Verdict>, allowed: bool, plan: Plan,
               digest: Vault.Bytes -> string, died: bool, done: nat)
    requires OthersSound(plan.draws)
    requires Finished(w, w', vs, after, allowed, plan, digest, died, done)
    ensures ActedOn(w, w', vs, after, allowed, plan, died, done) && MovedFor(w.moved, w'.moved, vs, allowed, digest)
    ensures NothingLost(w, Calls(vs, allowed, plan, done)) && VaultSafety.SoundDisk(w') && VaultSafety.Recorded(w')
  {
    hide VaultSafety.SoundDisk, VaultSafety.Recorded, VaultSafety.Run, MovedFor, NothingLost, AnswerAt, Calls, OthersSound, Ended;
    CallsAreQuarantines(vs, allowed, plan, done);
    CallsKeep(w, Calls(vs, allowed, plan, done));
  }

  /** The bytes moved are of a content that two engines flagged, and everything else that a move requires holds. */
  ghost predicate MoveEarned(p: Policy, engines: seq<Engine>, targets: seq<string>, reports: seq<Report>, origin: seq<nat>,
                             g: General, now: Instant, dryRun: bool, digest: Vault.Bytes -> string, taken: Vault.Taken)
    requires |origin| == |reports|
  {
    MoveJustified(p, engines, targets, reports, origin, digest(taken.file.content), taken.path, g, now, dryRun)
  }

  /**
   Engines, consolidation and the action on the vault: in any cycle of honest adapters, under
   weights with which no engine confirms alone, the consolidated verdicts are acted on as the vault
   answers and the vault is called only with justification; and whatever fails and wherever the
   process dies, every file that the vault has moved held bytes that two distinct engines flagged,
   and can be had back.
   */
  method CycleOnVault(p: Policy, engines: seq<Engine>, targets: seq<string>, size: int, pause: bool, expected: seq<string>,
                      g: General, now: Instant, dryRun: bool, vault: Vault.Process, plan: Plan,
                      ghost digest: Vault.Bytes -> string)
    returns (verdicts: array<Verdict>, reports: seq<Report>, ghost origin: seq<nat>, x: seq<string>, vs: seq<Verdict>,
             died: bool, ghost done: nat)
    requires SoloCannotConfirm(p.cfg)
    requires forall e :: 0 <= e < |engines| ==> Honest(engines[e].slug, engines[e].attempts)
    requires VaultSafety.SoundDisk(vault.world) && VaultSafety.Recorded(vault.world)
    requires Expects(digest, plan.wanted) && OthersSound(plan.draws)
    modifies vault
    ensures CycleReports(engines, targets, reports, origin) && IsConsolidation(p, reports, x, vs) && fresh(verdicts)
    ensures var allowed := AutomaticActionAllowed(g, now) && !dryRun;
      && ActedOn(old(vault.world), vault.world, vs, verdicts[..], allowed, plan, died, done)
      && NothingLost(old(vault.world), Calls(vs, allowed, plan, done))
      && forall k :: 0 <= k < |vs| && VaultCalled(vs[k], allowed) ==>
           MoveJustified(p, engines, targets, reports, origin, vs[k].sha, vs[k].path, g, now, dryRun)
    ensures forall r :: r in vault.world.moved && !(r in old(vault.world.moved) && old(vault.world.moved)[r] == vault.world.moved[r]) ==>
      MoveEarned(p, engines, targets, reports, origin, g, now, dryRun, digest, vault.world.moved[r])
  {
    hide MoveEarned, MoveJustified, CycleReports, IsConsolidation, ActedOn, NothingLost, SoloCannotConfirm;
    var outcomes, cleanCount;
    reports, outcomes, origin := RunEngines(engines, targets, size, pause);
    assert CycleReports(engines, targets, reports, origin) by { HonestReports(engines, targets, reports, origin); }
    vs, x, cleanCount := Consolidate(p, reports, expected);
    verdicts := new Verdict[|vs|](i requires 0 <= i < |vs| => vs[i]);
    assert verdicts[..] == vs;
    forall k | 0 <= k < |vs| ensures vs[k].sha != "" { NamedShas(p, reports, x, vs, k); }
    ghost var allowed, before := AutomaticActionAllowed(g, now) && !dryRun, vault.world.moved;
    died, done := ActOnVault(verdicts, g, now, dryRun, vault, plan, digest);
    forall k | 0 <= k < |vs| && VaultCalled(vs[k], allowed)
      ensures MoveJustified(p, engines, targets, reports, origin, vs[k].sha, vs[k].path, g, now, dryRun)
    {
      ActionSafety(p, engines, targets, reports, origin, x, vs, k, g, now, dryRun);
    }
    forall r | r in vault.world.moved && !(r in before && before[r] == vault.world.moved[r])
      ensures MoveEarned(p, engines, targets, reports, origin, g, now, dryRun, digest, vault.world.moved[r])
    {
      TakenEarned(p, engines, targets, reports, origin, x, vs, g, now, dryRun, digest, vault.world.moved[r]);
    }
  }

  lemma HonestReports(engines: seq<Engine>, targets: seq<string>, reports: seq<Report>, origin: seq<nat>)
    requires ReportsOf(engines, targets, reports, origin)
    requires forall e :: 0 <= e < |engines| ==> Honest(engines[e].slug, engines[e].attempts)
    ensures CycleReports(engines, targets, reports, origin)
  {
  }

  lemma NamedShas(p: Policy, reports: seq<Report>, x: seq<string>, vs: seq<Verdict>, k: nat)
    requires IsConsolidation(p, reports, x, vs) && k < |vs|
    ensures vs[k].sha != ""
  {
  }

  lemma TakenEarned(p: Policy, engines: seq<Engine>, targets: seq<string>, reports: seq<Report>, origin: seq<nat>,
                    x: seq<string>, vs: seq<Verdict>, g: General, now: Instant, dryRun: bool, digest: Vault.Bytes -> string,
                    taken: Vault.Taken)
    requires CycleReports(engines, targets, reports, origin) && SoloCannotConfirm(p.cfg) && IsConsolidation(p, reports, x, vs)
    requires TakenFor(vs, AutomaticActionAllowed(g, now) && !dryRun, digest, taken)
    ensures MoveEarned(p, engines, targets, reports, origin, g, now, dryRun, digest, taken)
  {
    hide IsConsolidation, CycleReports, SoloCannotConfirm, MoveJustified;
    var allowed := AutomaticActionAllowed(g, now) && !dryRun;
    var k :| 0 <= k < |vs| && VaultCalled(vs[k], allowed) && taken.path == vs[k].path && digest(taken.file.content) == vs[k].sha;
    ActionSafety(p, engines, targets, reports, origin, x, vs, k, g, now, dryRun);
  }

  // ---- what the baseline remembers ----

  /** The reports of a cycle over these targets, one of which counts as a vote. */
  ghost predicate VotedOver(engines: seq<Engine>, targets: seq<string>, reports: seq<Report>, origin: seq<nat>) {
    ReportsOf(engines, targets, reports, origin) && SomeReportVotes(reports)
  }

  /** Some engine of the cycle looked at every one of the targets. */
  ghost predicate SomeoneLooked(engines: seq<Engine>, targets: seq<string>) {
    exists e :: 0 <= e < |engines| && LookedAtEverything(engines[e], targets)
  }

  /**
   No vote without an engine whose probe succeeds; and with nothing to look at, every such engine
   votes. So a cycle that was cancelled before it hashed anything, and has no targets for that
   reason, votes for its baseline if and only if some probe still succeeds.
   */
  lemma {:induction false} EmptyListVotes(engines: seq<Engine>, targets: seq<string>, reports: seq<Report>, origin: seq<nat>)
    requires ReportsOf(engines, targets, reports, origin)
    ensures VotedOver(engines, targets, reports, origin) ==> exists e :: 0 <= e < |engines| && engines[e].available
    ensures targets == [] ==>
      (VotedOver(engines, targets, reports, origin) <==> exists e :: 0 <= e < |engines| && engines[e].available)
  {
    if e :| targets == [] && 0 <= e < |engines| && engines[e].available {
      var k :| 0 <= k < |origin| && origin[k] == e;
      assert ReportOf(engines[origin[k]], [], reports[k]);
      assert !Abstains(reports[k]);
    }
  }

  lemma VoteLooked(engines: seq<Engine>, targets: seq<string>, reports: seq<Report>, origin: seq<nat>)
    requires VotedOver(engines, targets, reports, origin) && targets != []
    ensures SomeoneLooked(engines, targets)
  {
    var k :| 0 <= k < |reports| && !Abstains(reports[k]);
    var e := engines[origin[k]];
    var run :| Ran(e.slug, e.attempts, targets, run) && Merged(e.slug, run.partials, reports[k]);
    VoteMeansFullCoverage(e.slug, e.attempts, targets, run, reports[k]);
    assert CoveredBy(e, targets, run);
    assert LookedAtEverything(engines[origin[k]], targets);
  }

  /** The file was a target with that hash of a cycle in which some engine looked at every target. */
  ghost predicate LookedAt(cycles: seq<BaselineRuns.Cycle>, engines: nat -> seq<Engine>, path: string, sha: string) {
    exists i :: 0 <= i < |cycles| && BaselineRuns.Listed(BaselineRuns.TargetsOf(cycles, i), path, sha)
      && SomeoneLooked(engines(i), Baseline.Paths(BaselineRuns.TargetsOf(cycles, i)))
  }

  /**
   Baseline provenance down to the calls: when each cycle's vote comes from the reports its engines
   gave over its targets, then after any run of cycles whatever the baseline stores was, with that
   hash, among targets of which some engine was given every one, in calls that all completed,
   parsed and satisfied the schema.
   */
  lemma {:induction false} StoredWasLookedAt(cycles: seq<BaselineRuns.Cycle>, engines: nat -> seq<Engine>, reports: nat -> seq<Report>,
                          origin: nat -> seq<nat>, path: string)
    requires forall i :: 0 <= i < |cycles| ==> BaselineRuns.Plausible(cycles[i])
    requires forall i :: 0 <= i < |cycles| && cycles[i].voted ==>
      VotedOver(engines(i), Baseline.Paths(BaselineRuns.TargetsOf(cycles, i)), reports(i), origin(i))
    requires path in BaselineRuns.Stored(cycles)
    ensures LookedAt(cycles, engines, path, BaselineRuns.Stored(cycles)[path].sha)
  {
    hide BaselineRuns.TargetsOf, VotedOver, SomeoneLooked, BaselineRuns.Stored;
    BaselineRuns.Provenance(cycles);
    var sha := BaselineRuns.Stored(cycles)[path].sha;
    assert BaselineRuns.VotedTarget(cycles, path, sha);
    var i :| 0 <= i < |cycles| && cycles[i].voted && BaselineRuns.Listed(BaselineRuns.TargetsOf(cycles, i), path, sha);
    VoteLooked(engines(i), Baseline.Paths(BaselineRuns.TargetsOf(cycles, i)), reports(i), origin(i));
  }
}
