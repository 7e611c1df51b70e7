/** What an exit code of 0 says about the releases advisories name, and how long it lasts. */
module OverrideAuditOverTime {
  import opened Common
  import opened Semver
  import opened OverrideAudit
  import opened OverrideAuditTheorems
  import opened OverrideAuditAnswers
  import Alternatives = AdvisoryAlternatives

  // ---------------------------------------------------------------------------------------
  // From exit 0 to what an advisory's author wrote
  // ---------------------------------------------------------------------------------------

  /** One of the texts of an advisory in force, without an exception for it, spells these alternatives. */
  ghost predicate Spelled(policy: Policy, source: Source, o: Override, texts: seq<seq<Alternatives.Alternative>>) {
    && Answered(source, o.subject)
    && exists a, k :: Relevant(source, o, a) && !Excused(policy, o.subject, a.ghsa)
                      && 0 <= k < |a.ranges| && a.ranges[k] == Alternatives.Spellings(texts)
  }

  /**
   End to end: after exit 0, unless the override is reported as waiting, a published release that its
   floor admits lies in none of the alternatives an advisory's text spells, in any order and overlap,
   outside the gaps of that text.
   */
  lemma ExitZeroExcludesNamed(policy: Policy, source: Source, ws: Workspace, now: int, i: nat,
                              texts: seq<seq<Alternatives.Alternative>>, v: Version)
    requires Audit(policy, source, ws, now).exitCode == 0 && ws.overrides.Some? && i < |ws.overrides.value|
    requires Spelled(policy, source, ws.overrides.value[i], texts)
    requires Alternatives.Written(texts)
    ensures var o := ws.overrides.value[i];
            && o.specifier.Bounds? && source.listVersions(o.subject).Ok?
            && (ReportedWaiting(Audit(policy, source, ws, now), RecordOf(source, o), now)
                || (Offered(source, o, v) && Alternatives.DenotesText(v, texts) ==> Alternatives.InGapText(v, texts)))
    ensures Alternatives.HarmlessText(texts) ==> !Alternatives.InGapText(v, texts)
  {
    var o := ws.overrides.value[i];
    var declared := Declared(policy.globalDbOnly, o.subject);
    ExitZeroIsSound(policy, source, ws, now, i);
    Alternatives.LossOnlyInGaps(texts, v);
    var a, k :| Relevant(source, o, a) && !Excused(policy, o.subject, a.ghsa)
                && 0 <= k < |a.ranges| && a.ranges[k] == Alternatives.Spellings(texts);
    CollectedExactly(source, o.subject, declared, a);
    ExcusedIs(policy, o.subject, a.ghsa);
    if FloorSound(policy, source, o) && Offered(source, o, v) {
      var advisories := Collected(source, o.subject, declared).advisories.value;
      assert NothingMatches(policy, o.subject, advisories, v);
      var j :| 0 <= j < |advisories| && advisories[j] == a;
    }
  }

  // ---------------------------------------------------------------------------------------
  // The same audit later
  // ---------------------------------------------------------------------------------------

  /** Everything needed to test the admitted releases could be read. */
  predicate Reached(policy: Policy, source: Source, o: Override) {
    && ReadableFloor(o.specifier) && source.listVersions(o.subject).Ok?
    && RecordOf(source, o).admitted != []
    && Collected(source, o.subject, Declared(policy.globalDbOnly, o.subject)).advisories.Ok?
  }

  lemma ReachedIsJudged(policy: Policy, source: Source, o: Override, minutes: Option<int>, now: int)
    requires Reached(policy, source, o)
    ensures var c := Collected(source, o.subject, Declared(policy.globalDbOnly, o.subject));
            var r := JudgeAdvisories(policy, source, o, RecordOf(source, o).admitted, c.advisories.value, minutes, now);
            AuditOne(policy, source, o, minutes, now) == Audited(r.verdict, c.notes + r.notes)
  {}

  lemma NotReachedIsError(policy: Policy, source: Source, o: Override, minutes: Option<int>, now: int, later: int)
    requires !Reached(policy, source, o)
    ensures AuditOne(policy, source, o, minutes, later) == AuditOne(policy, source, o, minutes, now)
  {}

  lemma OnlyFindingsJudged(policy: Policy, source: Source, o: Override, admitted: seq<Version>,
                           advisories: seq<Advisory>,
                           minutes: Option<int>, now: int, later: int)
    requires o.specifier.Bounds?
    requires var v := JudgeAdvisories(policy, source, o, admitted, advisories, minutes, now).verdict;
             !v.Stale? && !v.Quarantined?
    ensures JudgeAdvisories(policy, source, o, admitted, advisories, minutes, later)
         == JudgeAdvisories(policy, source, o, admitted, advisories, minutes, now)
  {}

  /** The clock is read only to judge a finding. */
  lemma OnlyFindingsAge(policy: Policy, source: Source, o: Override, minutes: Option<int>, now: int, later: int)
    requires var v := AuditOne(policy, source, o, minutes, now).verdict; !v.Stale? && !v.Quarantined?
    ensures AuditOne(policy, source, o, minutes, later) == AuditOne(policy, source, o, minutes, now)
  {
    if Reached(policy, source, o) {
      var advisories := Collected(source, o.subject, Declared(policy.globalDbOnly, o.subject)).advisories.value;
      ReachedIsJudged(policy, source, o, minutes, now);
      ReachedIsJudged(policy, source, o, minutes, later);
      OnlyFindingsJudged(policy, source, o, RecordOf(source, o).admitted, advisories, minutes, now, later);
    } else {
      NotReachedIsError(policy, source, o, minutes, now, later);
    }
  }

  lemma FindingIsJudged(policy: Policy, source: Source, o: Override, minutes: Option<int>, now: int, later: int)
    requires var v := AuditOne(policy, source, o, minutes, now).verdict; v.Stale? || v.Quarantined?
    ensures var f := AuditOne(policy, source, o, minutes, now).verdict.finding;
            var notes := Collected(source, o.subject, Declared(policy.globalDbOnly, o.subject)).notes;
            && f.vulnerable != []
            && AuditOne(policy, source, o, minutes, later)
               == Audited(JudgeFinding(source, o, f, minutes, later).verdict,
                          notes + JudgeFinding(source, o, f, minutes, later).notes)
  {
    FindingMeans(policy, source, o, minutes, now);
  }

  lemma WaitingIsQuiet(source: Source, o: Override, finding: Finding, minutes: Option<int>, now: int)
    requires finding.vulnerable != [] && JudgeFinding(source, o, finding, minutes, now).verdict.Quarantined?
    ensures JudgeFinding(source, o, finding, minutes, now).notes == []
  {}

  /** A verdict that passes goes on passing until a quarantine it rests on ends. */
  lemma PassesLater(policy: Policy, source: Source, o: Override, minutes: Option<int>, now: int, later: int)
    requires now <= later && Passing(AuditOne(policy, source, o, minutes, now))
    ensures var v := AuditOne(policy, source, o, minutes, now).verdict;
            Passing(AuditOne(policy, source, o, minutes, later)) <==> (v.Quarantined? ==> later < v.installableAt)
  {
    var v := AuditOne(policy, source, o, minutes, now).verdict;
    if v.Quarantined? {
      FindingIsJudged(policy, source, o, minutes, now, now);
      FindingIsJudged(policy, source, o, minutes, now, later);
      QuarantineClears(source, o, v.finding, minutes, now, later);
      if later < v.installableAt {
        WaitingIsQuiet(source, o, v.finding, minutes, later);
      }
    } else {
      OnlyFindingsAge(policy, source, o, minutes, now, later);
    }
  }

  /** Nothing is reported quarantined that no verdict says is. */
  lemma {:induction false} QuarantineHasSource(r: Report, audits: seq<Audited>, k: nat)
    requires k < |FileAll(r, audits).quarantined| && r.quarantined == []
    ensures exists i :: 0 <= i < |audits| && audits[i].verdict.Quarantined?
                        && audits[i].verdict.installableAt == FileAll(r, audits).quarantined[k].2
  {
    QuarantineFrom(r, audits, k);
  }

  lemma {:induction false} QuarantineFrom(r: Report, audits: seq<Audited>, k: nat)
    requires |r.quarantined| <= k < |FileAll(r, audits).quarantined|
    ensures exists i :: 0 <= i < |audits| && audits[i].verdict.Quarantined?
                        && audits[i].verdict.installableAt == FileAll(r, audits).quarantined[k].2
    decreases |audits|
  {
    if audits != [] {
      var mid := File(r, audits[0]);
      FileAllFiles(mid, audits[1..]);
      if |mid.quarantined| <= k {
        QuarantineFrom(mid, audits[1..], k);
        var i :| 0 <= i < |audits[1..]| && audits[1..][i].verdict.Quarantined?
                 && audits[1..][i].verdict.installableAt == FileAll(r, audits).quarantined[k].2;
        assert audits[i + 1] == audits[1..][i];
      } else {
        assert audits[0].verdict.Quarantined?;
        assert FileAll(r, audits).quarantined[k] == mid.quarantined[k];
      }
    }
  }

  predicate ReportsInstant(r: Report, at: int) {
    exists k :: 0 <= k < |r.quarantined| && r.quarantined[k].2 == at
  }

  predicate VerdictInstant(audits: seq<Audited>, at: int) {
    exists i :: 0 <= i < |audits| && audits[i].verdict.Quarantined? && audits[i].verdict.installableAt == at
  }

  /** The instants a report gives are those of the quarantined verdicts. */
  lemma ReportedInstants(policy: Policy, source: Source, ws: Workspace, now: int, at: int)
    requires Audit(policy, source, ws, now).exitCode == 0 && ws.overrides.Some?
    ensures ReportsInstant(Audit(policy, source, ws, now), at)
       <==> VerdictInstant(AuditEach(policy, source, ws.overrides.value, MinutesOf(ws), now), at)
  {
    ExitZeroExactly(policy, source, ws, now);
    var r := Audit(policy, source, ws, now);
    var audits := AuditEach(policy, source, ws.overrides.value, MinutesOf(ws), now);
    if k :| 0 <= k < |r.quarantined| && r.quarantined[k].2 == at {
      QuarantineHasSource(Report([], [], [], [], [], 0), audits, k);
    }
    if i :| 0 <= i < |audits| && audits[i].verdict.Quarantined? && audits[i].verdict.installableAt == at {
      VerdictFiled(policy, source, ws, now, i);
      var q := (audits[i].verdict.finding, audits[i].verdict.safeVersion, audits[i].verdict.installableAt);
      assert q in r.quarantined;
      var k :| 0 <= k < |r.quarantined| && r.quarantined[k] == q;
    }
  }

  predicate LastsUntil(a: Audited, later: int) {
    a.verdict.Quarantined? ==> later < a.verdict.installableAt
  }

  /** Every override goes on passing exactly until the first of the instants reported. */
  lemma LastsTogether(policy: Policy, source: Source, ws: Workspace, now: int, later: int)
    requires Audit(policy, source, ws, now).exitCode == 0 && ws.overrides.Some?
    ensures var r := Audit(policy, source, ws, now);
            var audits := AuditEach(policy, source, ws.overrides.value, MinutesOf(ws), now);
            (forall i :: 0 <= i < |audits| ==> LastsUntil(audits[i], later))
            <==> (forall k :: 0 <= k < |r.quarantined| ==> later < r.quarantined[k].2)
  {
    var r := Audit(policy, source, ws, now);
    var audits := AuditEach(policy, source, ws.overrides.value, MinutesOf(ws), now);
    forall i | 0 <= i < |audits| && audits[i].verdict.Quarantined?
      ensures ReportsInstant(r, audits[i].verdict.installableAt)
    {
      assert VerdictInstant(audits, audits[i].verdict.installableAt);
      ReportedInstants(policy, source, ws, now, audits[i].verdict.installableAt);
    }
    forall k | 0 <= k < |r.quarantined| ensures VerdictInstant(audits, r.quarantined[k].2) {
      assert ReportsInstant(r, r.quarantined[k].2);
      ReportedInstants(policy, source, ws, now, r.quarantined[k].2);
    }
  }

  /**
   A green run stays green, over an unchanged registry and workspace, exactly until the first of the
   instants it reports.
   */
  lemma GreenUntilFirstExpiry(policy: Policy, source: Source, ws: Workspace, now: int, later: int)
    requires now <= later && Audit(policy, source, ws, now).exitCode == 0
    ensures Audit(policy, source, ws, later).exitCode == 0 <==>
              forall k :: 0 <= k < |Audit(policy, source, ws, now).quarantined| ==>
                later < Audit(policy, source, ws, now).quarantined[k].2
  {
    ExitZeroExactly(policy, source, ws, now);
    ExitZeroExactly(policy, source, ws, later);
    LastsTogether(policy, source, ws, now, later);
    var overrides := ws.overrides.value;
    var audits := AuditEach(policy, source, overrides, MinutesOf(ws), now);
    forall i | 0 <= i < |overrides|
      ensures Passing(AuditOne(policy, source, overrides[i], MinutesOf(ws), later)) <==> LastsUntil(audits[i], later)
    {
      PassesLater(policy, source, overrides[i], MinutesOf(ws), now, later);
    }
  }
}
