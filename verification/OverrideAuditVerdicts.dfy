/** Every verdict and the exit code, as a rule over the answers of the registry, the databases and the policy. */
module OverrideAuditVerdicts {
  import opened Common
  import opened Semver
  import opened Sorting
  import opened OverrideAudit
  import opened OverrideAuditTheorems
  import opened OverrideAuditAnswers
  import Text

  // ---------------------------------------------------------------------------------------
  // The rule
  // ---------------------------------------------------------------------------------------

  /** An offered release above every affected one. */
  ghost predicate AboveAll(policy: Policy, source: Source, o: Override, v: Version)
    requires Answered(source, o.subject)
  {
    Offered(source, o, v) && forall w :: Affected(policy, source, o, w) ==> Lt(w, v)
  }

  /** Published no later than now, and not for `minutes` minutes yet; `at` is when that is over. */
  predicate WaitsUntil(source: Source, o: Override, v: Version, minutes: int, now: int, at: int) {
    match source.publishedAt(o.subject, v)
    case Ok(At(ms)) => ms <= now && at == ms + 60_000 * minutes && now < at
    case _ => false
  }

  ghost predicate Waits(source: Source, o: Override, v: Version, minutes: int, now: int) {
    exists at :: WaitsUntil(source, o, v, minutes, now, at)
  }

  /** Everything was read, something is offered, and the databases' silence, if it is that, is declared. */
  ghost predicate Judged(policy: Policy, source: Source, o: Override) {
    AllRead(source, o) && Believed(policy, source, o) && exists v :: Offered(source, o, v)
  }

  ghost predicate AnyAffected(policy: Policy, source: Source, o: Override)
    requires Answered(source, o.subject)
  {
    exists v :: Affected(policy, source, o, v)
  }

  /** The fix exists, and every release that has it is still waiting. */
  ghost predicate OnlyWaiting(policy: Policy, source: Source, o: Override, minutes: Option<int>, now: int)
    requires Answered(source, o.subject)
  {
    && minutes.Some? && (exists v :: AboveAll(policy, source, o, v))
    && forall v :: AboveAll(policy, source, o, v) ==> Waits(source, o, v, minutes.value, now)
  }

  // ---------------------------------------------------------------------------------------
  // What a finding holds
  // ---------------------------------------------------------------------------------------

  ghost predicate Implicates(effective: seq<Validated>, admitted: seq<Version>, a: Advisory) {
    exists i :: 0 <= i < |effective| && effective[i].advisory == a && Hits(admitted, effective[i].ranges) != []
  }

  lemma {:induction false} ImplicatedExactly(t: Tally, admitted: seq<Version>, effective: seq<Validated>, a: Advisory)
    ensures a in TallyHits(t, admitted, effective).implicated
            <==> a in t.implicated || Implicates(effective, admitted, a)
    decreases |effective|
  {
    if effective != [] {
      var hits, rest := Hits(admitted, effective[0].ranges), effective[1..];
      var next := if hits == [] then t else Tally(t.implicated + [effective[0].advisory], AddAll(t.vulnerable, hits));
      ImplicatedExactly(next, admitted, rest, a);
      if Implicates(rest, admitted, a) {
        var i :| 0 <= i < |rest| && rest[i].advisory == a && Hits(admitted, rest[i].ranges) != [];
        assert effective[i + 1] == rest[i];
      }
      if Implicates(effective, admitted, a) {
        var i :| 0 <= i < |effective| && effective[i].advisory == a && Hits(admitted, effective[i].ranges) != [];
        assert i > 0 ==> rest[i - 1] == effective[i];
      }
    }
  }

  /** The suggestion: the first `>=` or `^` is raised to the version, or the text becomes `>=version`. */
  predicate Raises(tokens: seq<Comparator>, rendered: seq<Comparator>, safe: Version) {
    if forall i :: 0 <= i < |tokens| ==> !tokens[i].Ge? && !tokens[i].Caret? then rendered == [Ge(Full(safe))]
    else
      && |rendered| == |tokens|
      && exists i :: 0 <= i < |tokens|
                     && (if tokens[i].Ge? then rendered[i] == Ge(Full(safe))
                         else tokens[i].Caret? && rendered[i] == Caret(Full(safe)))
                     && (forall k :: 0 <= k < i ==> !tokens[k].Ge? && !tokens[k].Caret?)
                     && (forall k :: 0 <= k < |tokens| && k != i ==> rendered[k] == tokens[k])
  }

  lemma RenderRaises(tokens: seq<Comparator>, safe: Version)
    ensures Raises(tokens, RenderSafeFloor(tokens, safe), safe)
  {
    var i := FloorToken(tokens);
    var rendered := RenderSafeFloor(tokens, safe);
    if i < |tokens| {
      assert if tokens[i].Ge? then rendered[i] == Ge(Full(safe))
             else tokens[i].Caret? && rendered[i] == Caret(Full(safe));
    }
  }

  /** There is a suggestion exactly if a fix exists, and it raises the floor to the least release that has it. */
  ghost predicate FloorTells(policy: Policy, source: Source, o: Override, floor: Option<seq<Comparator>>)
    requires Answered(source, o.subject) && o.specifier.Bounds?
  {
    && (floor.Some? <==> exists v :: AboveAll(policy, source, o, v))
    && (floor.Some? ==>
          exists safe :: AboveAll(policy, source, o, safe) && Raises(o.specifier.tokens, floor.value, safe)
                         && forall v :: AboveAll(policy, source, o, v) ==> Le(safe, v))
  }

  /** A finding lists exactly the affected releases, ascending, and the advisories that cover one. */
  ghost predicate FindingTells(policy: Policy, source: Source, o: Override, f: Finding)
    requires Answered(source, o.subject) && o.specifier.Bounds?
  {
    && Sorted(Le, f.vulnerable) && (forall v :: v in f.vulnerable <==> Affected(policy, source, o, v))
    && (forall a :: a in f.advisories ==>
          && Relevant(source, o, a) && !Excused(policy, o.subject, a.ghsa)
          && exists v :: Offered(source, o, v) && Covers(a, v))
    && (forall a :: && Relevant(source, o, a) && !Excused(policy, o.subject, a.ghsa)
                    && (exists v :: Offered(source, o, v) && Covers(a, v)) ==>
          a in f.advisories)
    && FloorTells(policy, source, o, f.safeFloor)
  }

  lemma HighestMeans(policy: Policy, source: Source, o: Override, record: Checked, tally: Tally)
    requires Answered(source, o.subject) && tally.vulnerable != []
    requires forall v :: v in record.admitted <==> Offered(source, o, v)
    requires forall v :: v in tally.vulnerable <==> Affected(policy, source, o, v)
    ensures var vulnerable := Sort(Le, tally.vulnerable);
            && Sorted(Le, vulnerable) && (forall v :: v in vulnerable <==> Affected(policy, source, o, v))
            && forall v :: v in CleanAbove(record.admitted, vulnerable[|vulnerable| - 1]) <==>
                             AboveAll(policy, source, o, v)
  {
    var vulnerable := Sort(Le, tally.vulnerable);
    LeIsTotal();
    SortSorts(Le, tally.vulnerable);
    SameElements(vulnerable, tally.vulnerable);
    HighestOf(tally.vulnerable);
    var highest := vulnerable[|vulnerable| - 1];
    assert Affected(policy, source, o, highest);
    forall v ensures v in CleanAbove(record.admitted, highest) <==> AboveAll(policy, source, o, v) {
      if v in CleanAbove(record.admitted, highest) {
        forall w | Affected(policy, source, o, w) ensures Lt(w, v) {
          assert Le(w, highest);
        }
      }
    }
  }

  lemma LeastTells(policy: Policy, source: Source, o: Override, clean: seq<Version>)
    requires Answered(source, o.subject) && o.specifier.Bounds? && Sorted(Le, clean)
    requires forall v :: v in clean <==> AboveAll(policy, source, o, v)
    ensures FloorTells(policy, source, o,
                       if clean == [] then None else Some(RenderSafeFloor(o.specifier.tokens, clean[0])))
  {
    if clean != [] {
      assert clean[0] in clean;
      RenderRaises(o.specifier.tokens, clean[0]);
      forall v | AboveAll(policy, source, o, v) ensures Le(clean[0], v) {
        assert v in clean;
        LastIsGreatest(clean, v);
      }
    }
  }

  lemma SafeIsLeast(policy: Policy, source: Source, o: Override, record: Checked, tally: Tally)
    requires Answered(source, o.subject) && o.specifier.Bounds? && tally.vulnerable != []
    requires Sorted(Le, record.admitted) && forall v :: v in record.admitted <==> Offered(source, o, v)
    requires forall v :: v in tally.vulnerable <==> Affected(policy, source, o, v)
    ensures FloorTells(policy, source, o, FindingOf(record, o.specifier.tokens, tally).safeFloor)
  {
    HighestMeans(policy, source, o, record, tally);
    var highest := Sort(Le, tally.vulnerable)[|tally.vulnerable| - 1];
    FilterSorted(v => Lt(highest, v), record.admitted);
    LeastTells(policy, source, o, CleanAbove(record.admitted, highest));
  }

  lemma ImplicatedMeans(policy: Policy, key: string, subject: string, list: seq<Advisory>, admitted: seq<Version>,
                        a: Advisory)
    requires ValidateAll(key, list).Ok?
    ensures Implicates(Effective(policy, subject, ValidateAll(key, list).value), admitted, a) <==>
              && a in list && !Excused(policy, subject, a.ghsa)
              && exists v :: v in admitted && Covers(a, v)
  {
    var effective := Effective(policy, subject, ValidateAll(key, list).value);
    if i :| 0 <= i < |effective| && effective[i].advisory == a && Hits(admitted, effective[i].ranges) != [] {
      var j := EffectiveGives(policy, key, subject, list, i);
      var v := Hits(admitted, effective[i].ranges)[0];
      HitsMembers(admitted, effective[i].ranges);
      CoversIs(a, effective[i].ranges, v);
    }
    if v :| v in admitted && a in list && !Excused(policy, subject, a.ghsa) && Covers(a, v) {
      var j :| 0 <= j < |list| && list[j] == a;
      var i := EffectiveHas(policy, key, subject, list, j);
      CoversIs(a, effective[i].ranges, v);
      HitsMembers(admitted, effective[i].ranges);
      assert v in Hits(admitted, effective[i].ranges);
    }
  }

  lemma AdvisoriesTell(policy: Policy, source: Source, o: Override, admitted: seq<Version>, a: Advisory)
    requires AllRead(source, o) && AdvisoriesAcceptedOrSilent(source, o)
    requires forall v :: v in admitted <==> Offered(source, o, v)
    ensures a in TallyHits(Tally([], []), admitted, EffectiveFor(policy, source, o)).implicated <==>
              && Relevant(source, o, a) && !Excused(policy, o.subject, a.ghsa)
              && exists v :: Offered(source, o, v) && Covers(a, v)
  {
    var declared := Declared(policy.globalDbOnly, o.subject);
    ImplicatedExactly(Tally([], []), admitted, EffectiveFor(policy, source, o), a);
    CollectedExactly(source, o.subject, declared, a);
    ImplicatedMeans(policy, o.key, o.subject, Collected(source, o.subject, declared).advisories.value, admitted, a);
  }

  // ---------------------------------------------------------------------------------------
  // The verdict
  // ---------------------------------------------------------------------------------------

  lemma WaitsIs(source: Source, o: Override, v: Version, minutes: int, now: int)
    ensures StillWaiting(source, o.subject, v, minutes, now) <==> Waits(source, o, v, minutes, now)
    ensures StillWaiting(source, o.subject, v, minutes, now) ==>
              forall at :: WaitsUntil(source, o, v, minutes, now, at) <==>
                             at == ExpiryOf(source, o.subject, v, minutes, now)
  {
    if StillWaiting(source, o.subject, v, minutes, now) {
      assert WaitsUntil(source, o, v, minutes, now, ExpiryOf(source, o.subject, v, minutes, now));
    }
  }

  /** What a quarantined verdict reports: the first instant at which a fixed release may be installed, and which. */
  ghost predicate FirstToMature(policy: Policy, source: Source, o: Override, minutes: int, now: int, v: Version,
                                at: int)
    requires Answered(source, o.subject)
  {
    && AboveAll(policy, source, o, v) && WaitsUntil(source, o, v, minutes, now, at)
    && forall w, t :: AboveAll(policy, source, o, w) && WaitsUntil(source, o, w, minutes, now, t) ==> at <= t
  }

  lemma RemedyExactly(policy: Policy, source: Source, o: Override, finding: Finding, minutes: Option<int>, now: int)
    requires Answered(source, o.subject) && finding.vulnerable != []
    requires forall v :: v in CandidatesOf(finding) <==> AboveAll(policy, source, o, v)
    ensures var a := JudgeFinding(source, o, finding, minutes, now).verdict;
            && (a == Stale(finding) || (a.Quarantined? && a.finding == finding))
            && (a.Quarantined? <==> OnlyWaiting(policy, source, o, minutes, now))
            && (a.Quarantined? ==> FirstToMature(policy, source, o, minutes.value, now, a.safeVersion, a.installableAt))
  {
    var a := JudgeFinding(source, o, finding, minutes, now).verdict;
    var clean := CandidatesOf(finding);
    QuarantinedExactly(source, o, finding, minutes, now);
    if minutes.Some? {
      forall v
        ensures StillWaiting(source, o.subject, v, minutes.value, now) <==> Waits(source, o, v, minutes.value, now)
        ensures StillWaiting(source, o.subject, v, minutes.value, now) ==>
                  forall at :: WaitsUntil(source, o, v, minutes.value, now, at) <==>
                                 at == ExpiryOf(source, o.subject, v, minutes.value, now)
      {
        WaitsIs(source, o, v, minutes.value, now);
      }
      assert clean != [] <==> exists v :: AboveAll(policy, source, o, v) by {
        if clean != [] {
          assert clean[0] in clean;
        }
      }
      assert (forall i :: 0 <= i < |clean| ==> StillWaiting(source, o.subject, clean[i], minutes.value, now)) <==>
             (forall v :: AboveAll(policy, source, o, v) ==> Waits(source, o, v, minutes.value, now)) by {
        assert forall i :: 0 <= i < |clean| ==> clean[i] in clean;
      }
      if a.Quarantined? {
        forall w, t | AboveAll(policy, source, o, w) && WaitsUntil(source, o, w, minutes.value, now, t)
          ensures a.installableAt <= t
        {
          var i :| 0 <= i < |clean| && clean[i] == w;
          assert a.installableAt <= ExpiryOf(source, o.subject, clean[i], minutes.value, now);
        }
      }
    }
  }

  lemma JudgedIs(policy: Policy, source: Source, o: Override)
    ensures Judged(policy, source, o) <==>
              && ReadableFloor(o.specifier) && source.listVersions(o.subject).Ok?
              && AdvisoriesAccepted(policy, source, o)
              && Admitted(source.listVersions(o.subject).value, o.specifier.tokens) != []
  {
    if ReadableFloor(o.specifier) && source.listVersions(o.subject).Ok? {
      ReadingIs(policy, source, o);
      var admitted := Admitted(source.listVersions(o.subject).value, o.specifier.tokens);
      forall v ensures v in admitted <==> Offered(source, o, v) {
        OfferedIs(source, o, v);
      }
      if admitted != [] {
        assert admitted[0] in admitted;
      }
    }
  }

  /** The verdict's rule. */
  ghost predicate VerdictTells(policy: Policy, source: Source, o: Override, minutes: Option<int>, now: int, v: Verdict)
    requires Answered(source, o.subject) && o.specifier.Bounds?
  {
    && (v.Clean? <==> !AnyAffected(policy, source, o))
    && (v.Quarantined? <==> AnyAffected(policy, source, o) && OnlyWaiting(policy, source, o, minutes, now))
    && (v.Stale? <==> AnyAffected(policy, source, o) && !OnlyWaiting(policy, source, o, minutes, now))
    && (v.Stale? || v.Quarantined? ==> FindingTells(policy, source, o, v.finding))
    && (v.Quarantined? ==> FirstToMature(policy, source, o, minutes.value, now, v.safeVersion, v.installableAt))
  }

  /**
   Main result for one override.  Once everything has been read: clean exactly if no offered release is
   affected, quarantined exactly if a fix exists and every release with it is still waiting, stale
   otherwise; and what a finding says is what the answers say.
   */
  lemma VerdictExactly(policy: Policy, source: Source, o: Override, minutes: Option<int>, now: int)
    requires Judged(policy, source, o)
    ensures VerdictTells(policy, source, o, minutes, now, AuditOne(policy, source, o, minutes, now).verdict)
  {
    JudgedIs(policy, source, o);
    ReadingIs(policy, source, o);
    var admitted := Admitted(source.listVersions(o.subject).value, o.specifier.tokens);
    var tally := TallyHits(Tally([], []), admitted, EffectiveFor(policy, source, o));
    CleanExactly(policy, source, o, minutes, now);
    AffectedOrNot(policy, source, o, tally);
    if tally.vulnerable != [] {
      FindingJudged(policy, source, o, minutes, now, admitted, tally);
    }
  }

  lemma AffectedOrNot(policy: Policy, source: Source, o: Override, tally: Tally)
    requires Answered(source, o.subject) && forall v :: v in tally.vulnerable <==> Affected(policy, source, o, v)
    ensures tally.vulnerable == [] <==> !AnyAffected(policy, source, o)
  {
    if tally.vulnerable != [] {
      assert tally.vulnerable[0] in tally.vulnerable;
    }
  }

  lemma FindingJudged(policy: Policy, source: Source, o: Override, minutes: Option<int>, now: int,
                      admitted: seq<Version>, tally: Tally)
    requires Judged(policy, source, o) && AdvisoriesAccepted(policy, source, o)
    requires source.listVersions(o.subject).Ok?
             && admitted == Admitted(source.listVersions(o.subject).value, o.specifier.tokens) && admitted != []
    requires tally == TallyHits(Tally([], []), admitted, EffectiveFor(policy, source, o)) && tally.vulnerable != []
    ensures VerdictTells(policy, source, o, minutes, now, AuditOne(policy, source, o, minutes, now).verdict)
  {
    var record := Checked(o.key, o.subject, o.specifier, admitted);
    var f := FindingOf(record, o.specifier.tokens, tally);
    ReadingIs(policy, source, o);
    AffectedOrNot(policy, source, o, tally);
    AdmittedExactly(source.listVersions(o.subject).value, o.specifier.tokens);
    forall v ensures v in admitted <==> Offered(source, o, v) {
      OfferedIs(source, o, v);
    }
    HighestMeans(policy, source, o, record, tally);
    SafeIsLeast(policy, source, o, record, tally);
    forall a ensures a in f.advisories <==>
                       && Relevant(source, o, a) && !Excused(policy, o.subject, a.ghsa)
                       && exists v :: Offered(source, o, v) && Covers(a, v)
    {
      AdvisoriesTell(policy, source, o, admitted, a);
    }
    assert FindingTells(policy, source, o, f);
    RemedyExactly(policy, source, o, f, minutes, now);
    JudgedVerdict(policy, source, o, minutes, now, admitted, tally);
  }

  lemma JudgedVerdict(policy: Policy, source: Source, o: Override, minutes: Option<int>, now: int,
                      admitted: seq<Version>, tally: Tally)
    requires ReadableFloor(o.specifier) && source.listVersions(o.subject).Ok? && AdvisoriesAccepted(policy, source, o)
    requires admitted == Admitted(source.listVersions(o.subject).value, o.specifier.tokens) && admitted != []
    requires tally == TallyHits(Tally([], []), admitted, EffectiveFor(policy, source, o)) && tally.vulnerable != []
    ensures AuditOne(policy, source, o, minutes, now).verdict
         == JudgeFinding(source, o,
                         FindingOf(Checked(o.key, o.subject, o.specifier, admitted), o.specifier.tokens, tally),
                         minutes, now).verdict
  {}

  /** The first of these releases that is not known to be waiting is one whose age could not be read. */
  ghost predicate FirstUnread(source: Source, o: Override, candidates: seq<Version>, minutes: int, now: int, v: Version)
  {
    exists i :: 0 <= i < |candidates| && candidates[i] == v && source.publishedAt(o.subject, v).Err?
                && forall j :: 0 <= j < i ==> Waits(source, o, candidates[j], minutes, now)
  }

  lemma {:induction false} UnreadExactly(source: Source, o: Override, candidates: seq<Version>, minutes: int, now: int,
                                         earliest: Option<(int, Version)>, v: Version)
    requires candidates == [] ==> earliest.Some?
    ensures JudgeFrom(source, o.subject, candidates, minutes, now, earliest) == Unknown(v)
       <==> FirstUnread(source, o, candidates, minutes, now, v)
    decreases |candidates|
  {
    if candidates != [] {
      var c, rest := candidates[0], candidates[1..];
      WaitsIs(source, o, c, minutes, now);
      if StillWaiting(source, o.subject, c, minutes, now) {
        var expiry := ExpiryOf(source, o.subject, c, minutes, now);
        var next := if earliest.None? || expiry < earliest.value.0 then Some((expiry, c)) else earliest;
        UnreadExactly(source, o, rest, minutes, now, next, v);
        UnreadTail(source, o, candidates, minutes, now, v);
      } else if source.publishedAt(o.subject, c).Err? {
        assert v == c ==> candidates[0] == v;
      }
    }
  }

  lemma UnreadTail(source: Source, o: Override, candidates: seq<Version>, minutes: int, now: int, v: Version)
    requires candidates != [] && Waits(source, o, candidates[0], minutes, now)
    ensures FirstUnread(source, o, candidates, minutes, now, v) <==>
              FirstUnread(source, o, candidates[1..], minutes, now, v)
  {
    var rest := candidates[1..];
    if i :| 0 <= i < |candidates| && candidates[i] == v && source.publishedAt(o.subject, v).Err?
            && forall j :: 0 <= j < i ==> Waits(source, o, candidates[j], minutes, now) {
      if i > 0 {
        assert rest[i - 1] == v;
        assert forall j :: 0 <= j < i - 1 ==> rest[j] == candidates[j + 1];
      }
    }
    if i :| 0 <= i < |rest| && rest[i] == v && source.publishedAt(o.subject, v).Err?
            && forall j :: 0 <= j < i ==> Waits(source, o, rest[j], minutes, now) {
      assert candidates[i + 1] == v;
      assert forall j :: 1 <= j < i + 1 ==> candidates[j] == rest[j - 1];
    }
  }

  /** A finding is noted as of unknown age exactly if its first fixed release not seen to wait could not be read. */
  lemma UnknownAgeNoted(source: Source, o: Override, finding: Finding, minutes: Option<int>, now: int, v: Version)
    requires finding.vulnerable != []
    ensures ExpiryUnknown(o.key, v) in JudgeFinding(source, o, finding, minutes, now).notes
       <==> minutes.Some? && FirstUnread(source, o, CandidatesOf(finding), minutes.value, now, v)
  {
    if CandidatesOf(finding) != [] && minutes.Some? {
      UnreadExactly(source, o, CandidatesOf(finding), minutes.value, now, None, v);
    }
  }

  // ---------------------------------------------------------------------------------------
  // Errors
  // ---------------------------------------------------------------------------------------

  /** The first read of the collection that failed, and its message. */
  predicate FailedWith(source: Source, package: string, why: string) {
    match source.globalAdvisories(package)
    case Err(e) => why == e
    case Ok(_) =>
      match source.upstreamRepo(package)
      case Err(e) => why == e
      case Ok(None) => false
      case Ok(Some(slug)) => source.repoAdvisories(slug, package) == Failed(why)
  }

  /** Why an override cannot be judged, in the order the reasons are looked for. */
  ghost predicate ErrorTells(policy: Policy, source: Source, o: Override, e: AuditError) {
    if !ReadableFloor(o.specifier) then e == BadSpecifier(o.key)
    else if source.listVersions(o.subject).Err? then e == SourceFailed(o.key, source.listVersions(o.subject).error)
    else if !exists v :: Offered(source, o, v) then e == AdmitsNothing(o.key)
    else if !Answered(source, o.subject) then
      e.SourceFailed? && e.key == o.key && FailedWith(source, o.subject, e.note)
    else if !Believed(policy, source, o) then e == NoAdvisories(o.key)
    else
      && e.UnreadableRange? && e.key == o.key
      && exists a :: Relevant(source, o, a) && !Legible(a) && a.ghsa == e.ghsa
  }

  lemma OfferedSomething(source: Source, o: Override)
    requires o.specifier.Bounds? && source.listVersions(o.subject).Ok?
    ensures Admitted(source.listVersions(o.subject).value, o.specifier.tokens) == [] <==>
              !exists v :: Offered(source, o, v)
  {
    var admitted := Admitted(source.listVersions(o.subject).value, o.specifier.tokens);
    forall v ensures v in admitted <==> Offered(source, o, v) {
      OfferedIs(source, o, v);
    }
    if admitted != [] {
      assert admitted[0] in admitted;
    }
  }

  lemma BelievedIs(policy: Policy, source: Source, o: Override)
    requires Answered(source, o.subject)
    ensures var list := Collected(source, o.subject, Declared(policy.globalDbOnly, o.subject)).advisories;
            && list.Ok? && (forall a :: a in list.value <==> Relevant(source, o, a))
            && (list.value != [] || Declared(policy.noAdvisoryExpected, o.key) <==> Believed(policy, source, o))
  {
    var declared := Declared(policy.globalDbOnly, o.subject);
    CollectedExactly(source, o.subject, declared, Advisory("", []));
    var list := Collected(source, o.subject, declared).advisories.value;
    forall a ensures a in list <==> Relevant(source, o, a) {
      CollectedExactly(source, o.subject, declared, a);
    }
    if list != [] {
      assert list[0] in list;
    }
  }

  lemma FloorErrors(policy: Policy, source: Source, o: Override, minutes: Option<int>, now: int)
    requires !ReadableFloor(o.specifier) || source.listVersions(o.subject).Err? || !exists v :: Offered(source, o, v)
    ensures var v := AuditOne(policy, source, o, minutes, now).verdict;
            v.Errored? && ErrorTells(policy, source, o, v.error)
  {
    if ReadableFloor(o.specifier) && source.listVersions(o.subject).Ok? {
      OfferedSomething(source, o);
    }
  }

  lemma CollectionErrors(policy: Policy, source: Source, o: Override, minutes: Option<int>, now: int)
    requires ReadableFloor(o.specifier) && source.listVersions(o.subject).Ok? && exists v :: Offered(source, o, v)
    requires !Answered(source, o.subject)
    ensures var v := AuditOne(policy, source, o, minutes, now).verdict;
            v.Errored? && ErrorTells(policy, source, o, v.error)
  {
    OfferedSomething(source, o);
  }

  /** What the advisories' judgement leaves of the verdict. */
  lemma AdvisoryErrors(policy: Policy, source: Source, o: Override, minutes: Option<int>, now: int)
    requires ReadableFloor(o.specifier) && source.listVersions(o.subject).Ok? && exists v :: Offered(source, o, v)
    requires Answered(source, o.subject) && !Judged(policy, source, o)
    ensures var v := AuditOne(policy, source, o, minutes, now).verdict;
            v.Errored? && ErrorTells(policy, source, o, v.error)
  {
    var list := Collected(source, o.subject, Declared(policy.globalDbOnly, o.subject)).advisories.value;
    OfferedSomething(source, o);
    BelievedIs(policy, source, o);
    JudgedAs(policy, source, o, minutes, now, list);
    if Believed(policy, source, o) {
      UnreadableTells(source, o, list);
    }
  }

  lemma JudgedAs(policy: Policy, source: Source, o: Override, minutes: Option<int>, now: int, list: seq<Advisory>)
    requires ReadableFloor(o.specifier) && source.listVersions(o.subject).Ok?
    requires Admitted(source.listVersions(o.subject).value, o.specifier.tokens) != []
    requires Collected(source, o.subject, Declared(policy.globalDbOnly, o.subject)).advisories == Ok(list)
    ensures list == [] && !Declared(policy.noAdvisoryExpected, o.key) ==>
              AuditOne(policy, source, o, minutes, now).verdict == Errored(NoAdvisories(o.key))
    ensures (list != [] || Declared(policy.noAdvisoryExpected, o.key)) && ValidateAll(o.key, list).Err? ==>
              AuditOne(policy, source, o, minutes, now).verdict == Errored(ValidateAll(o.key, list).error)
  {}

  /** An override that cannot be judged is an error, and says why. */
  lemma ErrorExactly(policy: Policy, source: Source, o: Override, minutes: Option<int>, now: int)
    ensures var v := AuditOne(policy, source, o, minutes, now).verdict;
            && (v.Errored? <==> !Judged(policy, source, o))
            && (v.Errored? ==> ErrorTells(policy, source, o, v.error))
  {
    if Judged(policy, source, o) {
      VerdictExactly(policy, source, o, minutes, now);
    } else if !ReadableFloor(o.specifier) || source.listVersions(o.subject).Err? || !exists v :: Offered(source, o, v) {
      FloorErrors(policy, source, o, minutes, now);
    } else if !Answered(source, o.subject) {
      CollectionErrors(policy, source, o, minutes, now);
    } else {
      AdvisoryErrors(policy, source, o, minutes, now);
    }
  }

  lemma UnreadableTells(source: Source, o: Override, list: seq<Advisory>)
    requires Answered(source, o.subject) && (forall a :: a in list <==> Relevant(source, o, a))
    requires exists a :: Relevant(source, o, a) && !Legible(a)
    ensures var r := ValidateAll(o.key, list);
            r.Err? && r.error.UnreadableRange? && r.error.key == o.key
            && exists a :: Relevant(source, o, a) && !Legible(a) && a.ghsa == r.error.ghsa
  {
    ValidatedExactly(o.key, list);
    var a :| Relevant(source, o, a) && !Legible(a);
    var i :| 0 <= i < |list| && list[i] == a;
    var r := ValidateAll(o.key, list);
    var j :| 0 <= j < |list| && !Legible(list[j]) && r.error == UnreadableRange(o.key, list[j].ghsa);
    assert Relevant(source, o, list[j]);
  }

  // ---------------------------------------------------------------------------------------
  // The exit code
  // ---------------------------------------------------------------------------------------

  predicate Says(s: string) {
    exists i :: 0 <= i < |s| && !Text.IsSpace(s[i])
  }

  predicate AlphaNum(c: char) {
    'a' <= c <= 'z' || 'A' <= c <= 'Z' || '0' <= c <= '9'
  }

  /** `GHSA-xxxx-xxxx-xxxx`, in any letter case. */
  predicate GhsaShape(s: string) {
    && |s| == 19 && SameId(s[..4], "GHSA")
    && forall i :: 4 <= i < 19 ==> if i % 5 == 4 then s[i] == '-' else AlphaNum(s[i])
  }

  /** Every exception names what it is for and gives a reason. */
  predicate Reasoned(p: Policy) {
    && (forall i :: 0 <= i < |p.allowlist| ==>
          Says(p.allowlist[i].package) && GhsaShape(p.allowlist[i].ghsa) && Says(p.allowlist[i].reason))
    && (forall i :: 0 <= i < |p.noAdvisoryExpected| ==>
          Says(p.noAdvisoryExpected[i].subject) && Says(p.noAdvisoryExpected[i].reason))
    && (forall i :: 0 <= i < |p.globalDbOnly| ==> Says(p.globalDbOnly[i].subject) && Says(p.globalDbOnly[i].reason))
  }

  lemma GhsaIs(s: string)
    ensures IsGhsaId(s) <==> GhsaShape(s)
  {
    if |s| == 19 {
      UpperMeans(s[..4], "GHSA");
      assert Text.ToUpper("GHSA") == "GHSA";
      if GhsaShape(s) {
        assert s[4] == '-' && s[9] == '-' && s[14] == '-';
        forall i | 0 <= i < 4 ensures AlphaNum(s[5..9][i]) && AlphaNum(s[10..14][i]) && AlphaNum(s[15..][i]) {
          assert AlphaNum(s[5 + i]) && AlphaNum(s[10 + i]) && AlphaNum(s[15 + i]);
        }
      }
      if IsGhsaId(s) {
        forall i | 4 <= i < 19 ensures if i % 5 == 4 then s[i] == '-' else AlphaNum(s[i]) {
          if 5 <= i < 9 {
            assert s[i] == s[5..9][i - 5];
          } else if 10 <= i < 14 {
            assert s[i] == s[10..14][i - 10];
          } else if 15 <= i {
            assert s[i] == s[15..][i - 15];
          }
        }
      }
    }
  }

  lemma ReasonedIs(p: Policy)
    ensures PolicyValid(p) <==> Reasoned(p)
  {
    forall i | 0 <= i < |p.allowlist| ensures IsGhsaId(p.allowlist[i].ghsa) <==> GhsaShape(p.allowlist[i].ghsa) {
      GhsaIs(p.allowlist[i].ghsa);
    }
  }

  /** The release age in force: none if absent or not positive, and at most a week. */
  predicate AgeIs(age: ReleaseAge, minutes: Option<int>) {
    match age
    case NotPositive => minutes.None?
    case Minutes(n) => if n <= 0 then minutes.None? else n <= 10_080 && minutes == Some(n)
  }

  /** The upstream leg was read, or doing without it is declared for the package. */
  predicate LegRead(policy: Policy, source: Source, subject: string) {
    || (exists i :: 0 <= i < |policy.globalDbOnly| && policy.globalDbOnly[i].subject == subject)
    || (source.upstreamRepo(subject).Ok? && source.upstreamRepo(subject).value.Some?
        && source.repoAdvisories(source.upstreamRepo(subject).value.value, subject).Fetched?)
  }

  /** An override that does not fail the run. */
  ghost predicate Passes(policy: Policy, source: Source, o: Override, minutes: Option<int>, now: int) {
    && Judged(policy, source, o) && LegRead(policy, source, o.subject)
    && (AnyAffected(policy, source, o) ==> OnlyWaiting(policy, source, o, minutes, now))
  }

  lemma JudgementIsQuiet(policy: Policy, source: Source, o: Override, admitted: seq<Version>, list: seq<Advisory>,
                         minutes: Option<int>, now: int)
    requires o.specifier.Bounds?
    ensures var a := JudgeAdvisories(policy, source, o, admitted, list, minutes, now);
            a.verdict.Clean? || a.verdict.Quarantined? ==> a.notes == []
  {
    if ValidateAll(o.key, list).Ok? {
      var tally := TallyHits(Tally([], []), admitted, Effective(policy, o.subject, ValidateAll(o.key, list).value));
      if tally.vulnerable != [] {
        var record := Checked(o.key, o.subject, o.specifier, admitted);
        RemedyIsQuiet(source, o, FindingOf(record, o.specifier.tokens, tally), minutes, now);
      }
    }
  }

  lemma RemedyIsQuiet(source: Source, o: Override, finding: Finding, minutes: Option<int>, now: int)
    requires finding.vulnerable != []
    ensures var a := JudgeFinding(source, o, finding, minutes, now);
            !a.verdict.Clean? && (a.verdict.Quarantined? ==> a.notes == [])
  {}

  lemma NotesAre(policy: Policy, source: Source, o: Override, minutes: Option<int>, now: int)
    requires Judged(policy, source, o)
    ensures var a := AuditOne(policy, source, o, minutes, now);
            a.verdict.Clean? || a.verdict.Quarantined? ==> (a.notes == [] <==> LegRead(policy, source, o.subject))
  {
    JudgedIs(policy, source, o);
    var declared := Declared(policy.globalDbOnly, o.subject);
    CollectedExactly(source, o.subject, declared, Advisory("", []));
    JudgementIsQuiet(policy, source, o, Admitted(source.listVersions(o.subject).value, o.specifier.tokens),
                     Collected(source, o.subject, declared).advisories.value, minutes, now);
    QuietLeg(policy, source, o.subject);
  }

  lemma QuietLeg(policy: Policy, source: Source, subject: string)
    requires Answered(source, subject)
    ensures NotesFor(source, subject, Declared(policy.globalDbOnly, subject)) == []
            <==> LegRead(policy, source, subject)
  {}

  lemma PassesIs(policy: Policy, source: Source, o: Override, minutes: Option<int>, now: int)
    ensures Passing(AuditOne(policy, source, o, minutes, now)) <==> Passes(policy, source, o, minutes, now)
  {
    ErrorExactly(policy, source, o, minutes, now);
    if Judged(policy, source, o) {
      VerdictExactly(policy, source, o, minutes, now);
      NotesAre(policy, source, o, minutes, now);
    }
  }

  lemma AgeIsUnique(ws: Workspace, minutes: Option<int>)
    ensures AgeIs(ws.age, minutes) <==> ParseMinimumReleaseAge(ws.age) == Ok(minutes)
    ensures AgeIs(ws.age, minutes) ==> MinutesOf(ws) == minutes
  {}

  /**
   Main result.  A run exits 0 if and only if the policy gives its reasons, the release age is in range,
   the workspace was read, and for every override everything was read and either no offered release is
   covered by an advisory in force, or a fix exists and all releases with it are still too young.
   */
  lemma ExitZeroFromAnswers(policy: Policy, source: Source, ws: Workspace, now: int)
    ensures Audit(policy, source, ws, now).exitCode == 0 <==>
              && Reasoned(policy) && ws.overrides.Some?
              && exists minutes :: AgeIs(ws.age, minutes) &&
                   forall i :: 0 <= i < |ws.overrides.value| ==>
                     Passes(policy, source, ws.overrides.value[i], minutes, now)
    ensures Audit(policy, source, ws, now).exitCode == 0 || Audit(policy, source, ws, now).exitCode == 1
  {
    ExitZeroExactly(policy, source, ws, now);
    ReasonedIs(policy);
    AgeIsUnique(ws, MinutesOf(ws));
    if ws.overrides.Some? {
      forall i | 0 <= i < |ws.overrides.value|
        ensures Passing(AuditOne(policy, source, ws.overrides.value[i], MinutesOf(ws), now))
           <==> Passes(policy, source, ws.overrides.value[i], MinutesOf(ws), now)
      {
        PassesIs(policy, source, ws.overrides.value[i], MinutesOf(ws), now);
      }
      if minutes :| AgeIs(ws.age, minutes) && forall i :: 0 <= i < |ws.overrides.value| ==>
           Passes(policy, source, ws.overrides.value[i], minutes, now) {
        AgeIsUnique(ws, minutes);
      }
    }
  }

  /** What is reported before any override is looked at. */
  lemma EarlyErrors(policy: Policy, source: Source, ws: Workspace, now: int)
    ensures var r := Audit(policy, source, ws, now);
            && (!Reasoned(policy) ==> r.errors == [BadPolicy] && r.checked == [])
            && (Reasoned(policy) && ws.overrides.None? ==> r.errors == [BadWorkspace] && r.checked == [])
            && (Reasoned(policy) && ws.overrides.Some? && ws.age.Minutes? && ws.age.n > 10_080 ==>
                  BadReleaseAge in r.errors)
  {
    ReasonedIs(policy);
    if Reasoned(policy) && ws.overrides.Some? && ws.age.Minutes? && ws.age.n > 10_080 {
      var start := Report([], [], [], [BadReleaseAge], [], 0);
      FileAllFiles(start, AuditEach(policy, source, ws.overrides.value, None, now));
      assert Audit(policy, source, ws, now).errors[0] == start.errors[0];
    }
  }
}
