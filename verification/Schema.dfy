/** The normalized schema of findings and reports (internal/schema). */
module Schema {

  datatype Status = Completed | Partial | Failed | Timeout | Killed

  /** Only a completed report may count as "the engine found nothing". */
  predicate CountsAsVote(s: Status) {
    s == Completed
  }

  /** `Unset` is the empty string, which older adapters leave and which means malware. */
  datatype Kind = Malware | Vulnerability | Hardening | UnknownKind | Unset

  predicate IsMalware(k: Kind) {
    k == Malware || k == Unset
  }

  datatype Confidence = Signature | Heuristic | Anomaly | UnknownConfidence

  datatype Finding = Finding(id: string, kind: Kind, engine: string, rule: string, path: string, sha: string,
                             category: string, confidence: Confidence)

  datatype Report = Report(engine: string, status: Status, error: string, findings: seq<Finding>, cleanFiles: seq<string>)

  predicate Abstains(r: Report) {
    !CountsAsVote(r.status)
  }

  predicate IsSha256(s: string) {
    |s| == 64 && forall i :: 0 <= i < 64 ==> '0' <= s[i] <= '9' || 'a' <= s[i] <= 'f'
  }

  /** `Finding.Validate`, as far as identity and the consensus depend on it. */
  predicate ValidFinding(f: Finding) {
    && f.engine != "" && f.rule != "" && f.kind != UnknownKind && f.confidence != UnknownConfidence
    && (f.kind != Vulnerability ==> IsSha256(f.sha) && f.path != "")
  }

  /** `ScanReport.Validate`. */
  predicate ValidReport(r: Report) {
    && r.engine != ""
    && (!CountsAsVote(r.status) ==> r.error != "")
    && (forall i :: 0 <= i < |r.findings| ==> ValidFinding(r.findings[i]) && r.findings[i].engine == r.engine)
    && (forall i :: 0 <= i < |r.cleanFiles| ==> IsSha256(r.cleanFiles[i]))
  }

  /** `FailedReport`: it never leaves with a status that counts as a vote. */
  function FailedReport(engine: string, status: Status, error: string): (r: Report)
    ensures Abstains(r) && r.findings == [] && r.cleanFiles == [] && r.engine == engine
    ensures status != Completed ==> r.status == status
  {
    Report(engine, if CountsAsVote(status) then Failed else status, error, [], [])
  }

  datatype Level = Clean | Suspicious | Likely | Confirmed

  function Rank(l: Level): (r: int)
    ensures 0 <= r <= 3
  {
    match l
    case Confirmed => 3
    case Likely => 2
    case Suspicious => 1
    case Clean => 0
  }

  datatype Action =
    | NoAction | Quarantined | Recommended | SkippedWhitelist | SkippedOfficial | SkippedNotReachable
    | RescanNeeded | ActionFailed
}
