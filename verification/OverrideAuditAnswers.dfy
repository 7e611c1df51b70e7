/** The audit's verdicts in terms of what the registry, the advisory databases and the policy say, and nothing else. */
module OverrideAuditAnswers {
  import opened Common
  import opened Semver
  import opened OverrideAudit
  import opened OverrideAuditTheorems
  import AdvisoryRanges
  import Reading = AdvisoryReading
  import Text

  // ---------------------------------------------------------------------------------------
  // Ids without regard to letter case
  // ---------------------------------------------------------------------------------------

  predicate SameLetter(c: char, d: char) {
    || c == d
    || ('a' <= c <= 'z' && d as int == c as int - 32)
    || ('A' <= c <= 'Z' && d as int == c as int + 32)
  }

  predicate SameId(a: string, b: string) {
    |a| == |b| && forall i :: 0 <= i < |a| ==> SameLetter(a[i], b[i])
  }

  lemma UpperMeans(a: string, b: string)
    ensures Text.ToUpper(a) == Text.ToUpper(b) <==> SameId(a, b)
  {
    var s, t := Text.ToUpper(a), Text.ToUpper(b);
    if s == t {
      forall i | 0 <= i < |a| ensures SameLetter(a[i], b[i]) {
        assert s[i] == Text.UpperChar(a[i]) && t[i] == Text.UpperChar(b[i]);
      }
    }
    if SameId(a, b) {
      forall i | 0 <= i < |a| ensures s[i] == t[i] {
        assert SameLetter(a[i], b[i]);
      }
    }
  }

  // ---------------------------------------------------------------------------------------
  // Which records are in force
  // ---------------------------------------------------------------------------------------

  /** The record at `i` is the last of the list under its id. */
  predicate LastUnderId(list: seq<Advisory>, i: nat)
    requires i < |list|
  {
    forall j :: i < j < |list| ==> !SameId(list[j].ghsa, list[i].ghsa)
  }

  predicate FirstUnderId(list: seq<Advisory>, i: nat)
    requires i < |list|
  {
    forall j :: 0 <= j < i ==> !SameId(list[j].ghsa, list[i].ghsa)
  }

  predicate Lists(list: seq<Advisory>, ghsa: string) {
    exists j :: 0 <= j < |list| && SameId(list[j].ghsa, ghsa)
  }

  /** What the upstream repository answered; nothing if it is unknown or its answer is reduced. */
  function Upstream(source: Source, package: string): seq<Advisory> {
    match source.upstreamRepo(package)
    case Ok(Some(slug)) => (match source.repoAdvisories(slug, package) case Fetched(list) => list case _ => [])
    case _ => []
  }

  /** The global database's last record under an id counts; where it has none, the upstream's first. */
  predicate InForce(global: seq<Advisory>, upstream: seq<Advisory>, a: Advisory) {
    || (exists i :: 0 <= i < |global| && global[i] == a && LastUnderId(global, i))
    || (!Lists(global, a.ghsa) && exists i :: 0 <= i < |upstream| && upstream[i] == a && FirstUnderId(upstream, i))
  }

  /** Every read the collection needs succeeded. */
  predicate Answered(source: Source, package: string) {
    && source.globalAdvisories(package).Ok? && source.upstreamRepo(package).Ok?
    && (source.upstreamRepo(package).value.Some? ==>
          !source.repoAdvisories(source.upstreamRepo(package).value.value, package).Failed?)
  }

  lemma {:induction false} LastWithMeans(list: seq<Advisory>, a: Advisory)
    ensures LastWith(list, KeyOf(a)) == Some(a) <==>
              exists i :: 0 <= i < |list| && list[i] == a && LastUnderId(list, i)
    ensures LastWith(list, KeyOf(a)).Some? <==> Lists(list, a.ghsa)
    decreases |list|
  {
    if list != [] {
      var n := |list| - 1;
      var front := list[..n];
      UpperMeans(list[n].ghsa, a.ghsa);
      LastWithMeans(front, a);
      if KeyOf(list[n]) == KeyOf(a) {
        if list[n] == a {
          assert LastUnderId(list, n);
        }
        forall i | 0 <= i < n && list[i] == a ensures !LastUnderId(list, i) {
          assert SameId(list[n].ghsa, list[i].ghsa);
        }
      } else {
        assert forall i :: 0 <= i < n ==> front[i] == list[i];
        forall i | 0 <= i < n && list[i] == a ensures LastUnderId(list, i) <==> LastUnderId(front, i) {
          assert !SameId(list[n].ghsa, a.ghsa);
        }
      }
    }
  }

  lemma {:induction false} FirstWithMeans(list: seq<Advisory>, a: Advisory)
    ensures FirstWith(list, KeyOf(a)) == Some(a) <==>
              exists i :: 0 <= i < |list| && list[i] == a && FirstUnderId(list, i)
  {
    if list != [] {
      UpperMeans(list[0].ghsa, a.ghsa);
      var rest := list[1..];
      FirstWithMeans(rest, a);
      assert forall i :: 0 <= i < |rest| ==> rest[i] == list[i + 1];
      if KeyOf(list[0]) == KeyOf(a) {
        if list[0] == a {
          assert FirstUnderId(list, 0);
        }
        forall i | 0 < i < |list| && list[i] == a ensures !FirstUnderId(list, i) {
          assert SameId(list[0].ghsa, list[i].ghsa);
        }
      } else {
        forall i | 0 < i < |list| && list[i] == a ensures FirstUnderId(list, i) <==> FirstUnderId(rest, i - 1) {
          assert rest[i - 1] == list[i] && !SameId(list[0].ghsa, a.ghsa);
          assert forall j :: 1 <= j < i ==> list[j] == rest[j - 1];
        }
        if i :| 0 <= i < |list| && list[i] == a && FirstUnderId(list, i) {
          assert rest[i - 1] == a && FirstUnderId(rest, i - 1);
        }
        if i :| 0 <= i < |rest| && rest[i] == a && FirstUnderId(rest, i) {
          assert list[i + 1] == a && FirstUnderId(list, i + 1);
        }
      }
    }
  }

  lemma DistinctMember(list: seq<Advisory>, a: Advisory)
    requires DistinctKeys(list)
    ensures a in list <==> FirstWith(list, KeyOf(a)) == Some(a)
  {
    FirstWithMembers(list, KeyOf(a));
    if a in list {
      var i :| 0 <= i < |list| && list[i] == a;
      assert Has(list, KeyOf(a));
      var b := FirstWith(list, KeyOf(a)).value;
      var j :| 0 <= j < |list| && list[j] == b;
    }
  }

  lemma MergedMeans(global: seq<Advisory>, upstream: seq<Advisory>, a: Advisory)
    ensures var all := PutNew(PutAll([], global), upstream);
            DistinctKeys(all) && (a in all <==> InForce(global, upstream, a))
  {
    GlobalRecordWins(global, upstream, KeyOf(a));
    DistinctMember(PutNew(PutAll([], global), upstream), a);
    LastWithMeans(global, a);
    FirstWithMeans(upstream, a);
  }

  /** The note a reduced reading leaves, unless doing without the upstream leg is declared. */
  function NotesFor(source: Source, package: string, declared: bool): seq<Note> {
    if declared then []
    else
      match source.upstreamRepo(package)
      case Ok(None) => [NoRepo(package)]
      case Ok(Some(slug)) =>
        (match source.repoAdvisories(slug, package) case Degraded(why) => [RepoUnreadable(package, why)] case _ => [])
      case _ => []
  }

  lemma CollectedIs(source: Source, package: string, declared: bool)
    requires Answered(source, package)
    ensures Collected(source, package, declared)
         == Collection(Ok(PutNew(PutAll([], source.globalAdvisories(package).value), Upstream(source, package))),
                       NotesFor(source, package, declared))
  {}

  /**
   Main result for the collection: it fails exactly if a read failed; otherwise it holds the records in
   force and no others, no id twice in whatever letter case, and notes a missing upstream leg.
   */
  lemma CollectedExactly(source: Source, package: string, declared: bool, a: Advisory)
    ensures var c := Collected(source, package, declared);
            && (c.advisories.Ok? <==> Answered(source, package))
            && (c.advisories.Ok? ==>
                  && c.notes == NotesFor(source, package, declared)
                  && (a in c.advisories.value <==>
                      InForce(source.globalAdvisories(package).value, Upstream(source, package), a))
                  && forall i, j :: 0 <= i < j < |c.advisories.value| ==>
                       !SameId(c.advisories.value[i].ghsa, c.advisories.value[j].ghsa))
  {
    if Answered(source, package) {
      CollectedIs(source, package, declared);
      MergedMeans(source.globalAdvisories(package).value, Upstream(source, package), a);
      var list := Collected(source, package, declared).advisories.value;
      forall i, j | 0 <= i < j < |list| ensures !SameId(list[i].ghsa, list[j].ghsa) {
        UpperMeans(list[i].ghsa, list[j].ghsa);
        assert KeyOf(list[i]) != KeyOf(list[j]);
      }
    }
  }

  // ---------------------------------------------------------------------------------------
  // Which releases are affected
  // ---------------------------------------------------------------------------------------

  ghost predicate Relevant(source: Source, o: Override, a: Advisory)
    requires Answered(source, o.subject)
  {
    InForce(source.globalAdvisories(o.subject).value, Upstream(source, o.subject), a)
  }

  predicate Excused(policy: Policy, subject: string, ghsa: string) {
    exists i :: 0 <= i < |policy.allowlist|
                && policy.allowlist[i].package == subject && SameId(policy.allowlist[i].ghsa, ghsa)
  }

  /** A text of the advisory is read, and the reading accepts the release. */
  predicate Covers(a: Advisory, v: Version) {
    exists k :: 0 <= k < |a.ranges|
                && AdvisoryRanges.Normalized(a.ranges[k]).Ok?
                && Reading.Accepts(AdvisoryRanges.Normalized(a.ranges[k]).value, v)
  }

  predicate Legible(a: Advisory) {
    forall k :: 0 <= k < |a.ranges| ==> AdvisoryRanges.Normalized(a.ranges[k]).Ok?
  }

  /** A published release that the floor lets in. */
  predicate Offered(source: Source, o: Override, v: Version) {
    && source.listVersions(o.subject).Ok? && Release(v) in source.listVersions(o.subject).value
    && o.specifier.Bounds? && forall i :: 0 <= i < |o.specifier.tokens| ==> Satisfies(v, o.specifier.tokens[i])
  }

  /** Such a release that an advisory in force covers, without an exception for it. */
  ghost predicate Affected(policy: Policy, source: Source, o: Override, v: Version)
    requires Answered(source, o.subject)
  {
    Offered(source, o, v) && exists a :: Relevant(source, o, a) && !Excused(policy, o.subject, a.ghsa) && Covers(a, v)
  }

  lemma ExcusedIs(policy: Policy, subject: string, ghsa: string)
    ensures Allowlisted(policy, subject, ghsa) <==> Excused(policy, subject, ghsa)
  {
    forall i | 0 <= i < |policy.allowlist|
      ensures Text.ToUpper(policy.allowlist[i].ghsa) == Text.ToUpper(ghsa) <==> SameId(policy.allowlist[i].ghsa, ghsa)
    {
      UpperMeans(policy.allowlist[i].ghsa, ghsa);
    }
  }

  lemma {:induction false} LegibleIs(ranges: seq<RangeText>)
    ensures ToSemverRanges(ranges).Some? <==>
              forall k :: 0 <= k < |ranges| ==> AdvisoryRanges.Normalized(ranges[k]).Ok?
  {
    if ranges != [] {
      LegibleIs(ranges[1..]);
      assert forall k :: 0 <= k < |ranges[1..]| ==> ranges[1..][k] == ranges[k + 1];
      assert forall k :: 1 <= k < |ranges| ==> ranges[k] == ranges[1..][k - 1];
    }
  }

  /** Validation fails at the first advisory with a text that is not legible. */
  lemma {:induction false} ValidatedExactly(key: string, advisories: seq<Advisory>)
    ensures var r := ValidateAll(key, advisories);
            && (r.Ok? <==> forall i :: 0 <= i < |advisories| ==> Legible(advisories[i]))
            && (r.Err? ==> exists i :: 0 <= i < |advisories| && !Legible(advisories[i])
                                       && r.error == UnreadableRange(key, advisories[i].ghsa)
                                       && forall j :: 0 <= j < i ==> Legible(advisories[j]))
  {
    if advisories != [] {
      var rest := advisories[1..];
      LegibleIs(advisories[0].ranges);
      ValidatedExactly(key, rest);
      assert forall i :: 0 <= i < |rest| ==> rest[i] == advisories[i + 1];
      assert forall i :: 1 <= i < |advisories| ==> advisories[i] == rest[i - 1];
      if Legible(advisories[0]) && ValidateAll(key, rest).Err? {
        var i :| 0 <= i < |rest| && !Legible(rest[i])
                 && ValidateAll(key, rest).error == UnreadableRange(key, rest[i].ghsa)
                 && forall j :: 0 <= j < i ==> Legible(rest[j]);
        assert !Legible(advisories[i + 1]);
      }
    }
  }

  lemma CoversIs(a: Advisory, ranges: seq<Groups>, v: Version)
    requires ToSemverRanges(a.ranges) == Some(ranges)
    ensures MatchesAny(v, ranges) <==> Covers(a, v)
  {
    ToSemverRangesExactly(a.ranges);
  }

  /** Where an effective entry comes from. */
  lemma EffectiveGives(policy: Policy, key: string, subject: string, advisories: seq<Advisory>, i: nat)
    returns (j: nat)
    requires ValidateAll(key, advisories).Ok?
    requires i < |Effective(policy, subject, ValidateAll(key, advisories).value)|
    ensures var x := Effective(policy, subject, ValidateAll(key, advisories).value)[i];
            && j < |advisories| && advisories[j] == x.advisory && !Excused(policy, subject, x.advisory.ghsa)
            && ToSemverRanges(x.advisory.ranges) == Some(x.ranges)
  {
    var all := ValidateAll(key, advisories).value;
    var x := Effective(policy, subject, all)[i];
    ValidateAllExactly(key, advisories);
    assert x in Effective(policy, subject, all) && x in all;
    j :| 0 <= j < |all| && all[j] == x;
    ExcusedIs(policy, subject, x.advisory.ghsa);
  }

  /** Where an advisory without an exception stands among the effective ones. */
  lemma EffectiveHas(policy: Policy, key: string, subject: string, advisories: seq<Advisory>, j: nat) returns (i: nat)
    requires ValidateAll(key, advisories).Ok?
    requires j < |advisories| && !Excused(policy, subject, advisories[j].ghsa)
    ensures var effective := Effective(policy, subject, ValidateAll(key, advisories).value);
            && i < |effective| && effective[i].advisory == advisories[j]
            && ToSemverRanges(advisories[j].ranges) == Some(effective[i].ranges)
  {
    var all := ValidateAll(key, advisories).value;
    var effective := Effective(policy, subject, all);
    ValidateAllExactly(key, advisories);
    ExcusedIs(policy, subject, advisories[j].ghsa);
    assert all[j] in effective;
    i :| 0 <= i < |effective| && effective[i] == all[j];
  }

  /** The effective list hits exactly what an advisory without an exception covers. */
  lemma HitMeans(policy: Policy, key: string, subject: string, advisories: seq<Advisory>, v: Version)
    requires ValidateAll(key, advisories).Ok?
    ensures HitBy(v, Effective(policy, subject, ValidateAll(key, advisories).value)) <==>
              exists a :: a in advisories && !Excused(policy, subject, a.ghsa) && Covers(a, v)
  {
    var effective := Effective(policy, subject, ValidateAll(key, advisories).value);
    if i :| 0 <= i < |effective| && MatchesAny(v, effective[i].ranges) {
      var j := EffectiveGives(policy, key, subject, advisories, i);
      CoversIs(advisories[j], effective[i].ranges, v);
      assert advisories[j] in advisories;
    }
    if a :| a in advisories && !Excused(policy, subject, a.ghsa) && Covers(a, v) {
      var j :| 0 <= j < |advisories| && advisories[j] == a;
      var i := EffectiveHas(policy, key, subject, advisories, j);
      CoversIs(a, effective[i].ranges, v);
    }
  }

  /** Whether the floor, its releases and every advisory in force could be read. */
  ghost predicate AllRead(source: Source, o: Override) {
    && o.specifier.Bounds? && (forall i :: 0 <= i < |o.specifier.tokens| ==> !o.specifier.tokens[i].Unreadable?)
    && source.listVersions(o.subject).Ok? && Answered(source, o.subject)
    && forall a :: Relevant(source, o, a) ==> Legible(a)
  }

  /** No advisory at all is only believed where that is declared. */
  ghost predicate Believed(policy: Policy, source: Source, o: Override)
    requires Answered(source, o.subject)
  {
    || (exists a :: Relevant(source, o, a))
    || (exists i :: 0 <= i < |policy.noAdvisoryExpected| && policy.noAdvisoryExpected[i].subject == o.key)
  }

  lemma OfferedIs(source: Source, o: Override, v: Version)
    requires o.specifier.Bounds? && source.listVersions(o.subject).Ok?
    ensures v in Admitted(source.listVersions(o.subject).value, o.specifier.tokens) <==> Offered(source, o, v)
  {
    AdmittedExactly(source.listVersions(o.subject).value, o.specifier.tokens);
  }

  /** The collected list, the validation and the tally, in terms of the answers. */
  lemma ReadingIs(policy: Policy, source: Source, o: Override)
    requires ReadableFloor(o.specifier) && source.listVersions(o.subject).Ok?
    ensures AdvisoriesAccepted(policy, source, o) <==> AllRead(source, o) && Believed(policy, source, o)
    ensures AllRead(source, o) ==>
              && AdvisoriesAcceptedOrSilent(source, o)
              && forall v :: v in TallyHits(Tally([], []),
                                            Admitted(source.listVersions(o.subject).value, o.specifier.tokens),
                                            EffectiveFor(policy, source, o)).vulnerable <==>
                               Affected(policy, source, o, v)
  {
    var declared := Declared(policy.globalDbOnly, o.subject);
    var c := Collected(source, o.subject, declared);
    CollectedExactly(source, o.subject, declared, Advisory("", []));
    SameAdvisories(source, o, declared);
    if c.advisories.Ok? {
      var list := c.advisories.value;
      forall a ensures a in list <==> Relevant(source, o, a) {
        CollectedExactly(source, o.subject, declared, a);
      }
      ValidatedExactly(o.key, list);
      assert (forall i :: 0 <= i < |list| ==> Legible(list[i]))
             <==> forall a :: Relevant(source, o, a) ==> Legible(a) by {
        assert forall i :: 0 <= i < |list| ==> list[i] in list;
      }
      assert list != [] <==> exists a :: Relevant(source, o, a) by {
        if list != [] {
          assert list[0] in list;
        }
      }
      if AllRead(source, o) {
        TalliedIs(policy, source, o, list);
      }
    }
  }

  ghost predicate AdvisoriesAcceptedOrSilent(source: Source, o: Override) {
    forall declared :: Collected(source, o.subject, declared).advisories.Ok?
                       && ValidateAll(o.key, Collected(source, o.subject, declared).advisories.value).Ok?
  }

  /** The declaration changes the notes only. */
  lemma SameAdvisories(source: Source, o: Override, declared: bool)
    ensures forall d :: Collected(source, o.subject, d).advisories == Collected(source, o.subject, declared).advisories
  {}

  lemma TalliedIs(policy: Policy, source: Source, o: Override, list: seq<Advisory>)
    requires o.specifier.Bounds? && source.listVersions(o.subject).Ok? && Answered(source, o.subject)
    requires Collected(source, o.subject, Declared(policy.globalDbOnly, o.subject)).advisories == Ok(list)
    requires ValidateAll(o.key, list).Ok? && forall a :: a in list <==> Relevant(source, o, a)
    ensures forall v :: v in TallyHits(Tally([], []),
                                       Admitted(source.listVersions(o.subject).value, o.specifier.tokens),
                                       EffectiveFor(policy, source, o)).vulnerable <==>
                          Affected(policy, source, o, v)
  {
    var admitted := Admitted(source.listVersions(o.subject).value, o.specifier.tokens);
    forall v ensures v in TallyHits(Tally([], []), admitted, EffectiveFor(policy, source, o)).vulnerable <==>
                       Affected(policy, source, o, v)
    {
      TallyExactly(Tally([], []), admitted, EffectiveFor(policy, source, o), v);
      HitMeans(policy, o.key, o.subject, list, v);
      OfferedIs(source, o, v);
    }
  }
}
