/** What a green audit, a safe floor and a quarantine verdict each promise. */
module OverrideAuditTheorems {
  import opened Common
  import opened Semver
  import opened Sorting
  import opened OverrideAudit
  import AdvisoryRanges
  import Reading = AdvisoryReading
  import Text

  // ---------------------------------------------------------------------------------------
  // The admitted set and the vulnerable set
  // ---------------------------------------------------------------------------------------

  lemma LeIsTotal()
    ensures TotalPreorder(Le)
  {}

  lemma {:induction false} ReleasesMembers(published: seq<Published>, v: Version)
    ensures v in Releases(published) <==> Release(v) in published
  {
    if published != [] {
      ReleasesMembers(published[1..], v);
    }
  }

  /** Admitted is ascending and holds exactly the published releases the floor accepts. */
  lemma AdmittedExactly(published: seq<Published>, tokens: seq<Comparator>)
    ensures Sorted(Le, Admitted(published, tokens))
    ensures forall v :: v in Admitted(published, tokens) <==> Release(v) in published && SatisfiesAll(v, tokens)
  {
    LeIsTotal();
    var kept := Filter(v => SatisfiesAll(v, tokens), Releases(published));
    SortSorts(Le, kept);
    SameElements(Sort(Le, kept), kept);
    forall v ensures v in kept <==> Release(v) in published && SatisfiesAll(v, tokens) {
      ReleasesMembers(published, v);
    }
  }

  lemma {:induction false} AddAllMembers(found: seq<Version>, hits: seq<Version>)
    ensures forall v :: v in AddAll(found, hits) <==> v in found || v in hits
    decreases |hits|
  {
    if hits != [] {
      AddAllMembers(if hits[0] in found then found else found + [hits[0]], hits[1..]);
    }
  }

  ghost predicate HitBy(v: Version, effective: seq<Validated>) {
    exists i :: 0 <= i < |effective| && MatchesAny(v, effective[i].ranges)
  }

  lemma HitByCons(v: Version, effective: seq<Validated>)
    requires effective != []
    ensures HitBy(v, effective) <==> MatchesAny(v, effective[0].ranges) || HitBy(v, effective[1..])
  {
    if HitBy(v, effective[1..]) {
      var i :| 0 <= i < |effective[1..]| && MatchesAny(v, effective[1..][i].ranges);
      assert effective[i + 1] == effective[1..][i];
    }
    if HitBy(v, effective) {
      var i :| 0 <= i < |effective| && MatchesAny(v, effective[i].ranges);
      assert i > 0 ==> effective[1..][i - 1] == effective[i];
    }
  }

  lemma HitsMembers(admitted: seq<Version>, ranges: seq<Groups>)
    ensures forall v :: v in Hits(admitted, ranges) <==> v in admitted && MatchesAny(v, ranges)
  {}

  /** The tally's vulnerable set is exactly the admitted versions some effective advisory matches. */
  lemma {:induction false} TallyExactly(t: Tally, admitted: seq<Version>, effective: seq<Validated>, v: Version)
    ensures v in TallyHits(t, admitted, effective).vulnerable
            <==> v in t.vulnerable || (v in admitted && HitBy(v, effective))
    decreases |effective|
  {
    if effective != [] {
      var hits := Hits(admitted, effective[0].ranges);
      var next := if hits == [] then t else Tally(t.implicated + [effective[0].advisory], AddAll(t.vulnerable, hits));
      TallyExactly(next, admitted, effective[1..], v);
      AddAllMembers(t.vulnerable, hits);
      HitsMembers(admitted, effective[0].ranges);
      HitByCons(v, effective);
    }
  }

  // ---------------------------------------------------------------------------------------
  // The safe version
  // ---------------------------------------------------------------------------------------

  lemma {:induction false} FilterSorted(p: Version -> bool, xs: seq<Version>)
    requires Sorted(Le, xs)
    ensures Sorted(Le, Filter(p, xs))
  {
    if xs != [] {
      FilterSorted(p, xs[1..]);
      forall y | y in Filter(p, xs[1..]) ensures Le(xs[0], y) {
        assert y in xs[1..];
      }
    }
  }

  lemma HighestOf(vulnerable: seq<Version>)
    requires vulnerable != []
    ensures Sort(Le, vulnerable)[|vulnerable| - 1] in vulnerable
    ensures forall w :: w in vulnerable ==> Le(w, Sort(Le, vulnerable)[|vulnerable| - 1])
  {
    LeIsTotal();
    SortSorts(Le, vulnerable);
    var sorted := Sort(Le, vulnerable);
    assert sorted[|vulnerable| - 1] in multiset(vulnerable);
    forall w | w in vulnerable ensures Le(w, sorted[|vulnerable| - 1]) {
      assert w in multiset(sorted);
      LastIsGreatest(sorted, w);
    }
  }

  lemma LastIsGreatest(xs: seq<Version>, v: Version)
    requires Sorted(Le, xs) && v in xs
    ensures Le(v, xs[|xs| - 1]) && Le(xs[0], v)
  {
    var i :| 0 <= i < |xs| && xs[i] == v;
  }

  /** Above the highest vulnerable version means: nothing vulnerable from here up. */
  lemma CleanAboveMeans(admitted: seq<Version>, vulnerable: seq<Version>, highest: Version, v: Version)
    requires highest in vulnerable && highest in admitted
    requires forall w :: w in vulnerable ==> Le(w, highest)
    ensures v in CleanAbove(admitted, highest)
            <==> v in admitted && forall w :: w in admitted && Le(v, w) ==> w !in vulnerable
  {
    if v in admitted && !Lt(highest, v) {
      assert highest in admitted && Le(v, highest);
    }
  }

  lemma NothingAbove(admitted: seq<Version>, highest: Version)
    requires Sorted(Le, admitted) && admitted != []
    ensures CleanAbove(admitted, highest) == [] <==> !Lt(highest, admitted[|admitted| - 1])
  {
    var last := admitted[|admitted| - 1];
    assert last in admitted;
    if Lt(highest, last) {
      assert last in CleanAbove(admitted, highest);
    } else {
      forall v | v in admitted ensures !Lt(highest, v) {
        LastIsGreatest(admitted, v);
      }
      FilterNone(v => Lt(highest, v), admitted);
    }
  }

  /**
   The safe version is the least admitted version from which every admitted version is clean, and
   there is none exactly when the highest admitted version is itself vulnerable.
   */
  lemma SafeVersionLeast(admitted: seq<Version>, vulnerable: seq<Version>)
    requires Sorted(Le, admitted) && admitted != [] && vulnerable != []
    requires forall v :: v in vulnerable ==> v in admitted
    ensures var highest := Sort(Le, vulnerable)[|vulnerable| - 1];
            var clean := CleanAbove(admitted, highest);
            && (clean == [] <==> admitted[|admitted| - 1] in vulnerable)
            && (forall v :: v in clean <==> v in admitted && forall w :: w in admitted && Le(v, w) ==> w !in vulnerable)
            && (forall v :: v in clean ==> Le(clean[0], v))
  {
    var highest := Sort(Le, vulnerable)[|vulnerable| - 1];
    HighestOf(vulnerable);
    var clean := CleanAbove(admitted, highest);
    forall v ensures v in clean <==> v in admitted && forall w :: w in admitted && Le(v, w) ==> w !in vulnerable {
      CleanAboveMeans(admitted, vulnerable, highest, v);
    }
    FilterSorted(v => Lt(highest, v), admitted);
    forall v | v in clean ensures Le(clean[0], v) {
      LastIsGreatest(clean, v);
    }
    NothingAbove(admitted, highest);
    LastIsGreatest(admitted, highest);
  }

  // ---------------------------------------------------------------------------------------
  // The rendered floor
  // ---------------------------------------------------------------------------------------

  predicate Unbounded(c: Comparator) {
    c.Ge? || c.Gt?
  }

  lemma UnboundedUp(v: Version, w: Version, c: Comparator)
    requires Unbounded(c) && Satisfies(v, c) && Le(v, w)
    ensures Satisfies(w, c)
  {}

  /** `^safe` stays inside `^original` when `safe` does, for every caret window including `^0.y` and `^0.0.z`. */
  lemma CaretNarrows(p: Partial, safe: Version, v: Version)
    requires Satisfies(safe, Caret(p)) && Satisfies(v, Caret(Full(safe)))
    ensures Satisfies(v, Caret(p)) && Le(safe, v)
  {}

  /** Past every admitted window there is a release the bound excludes. */
  lemma BoundedAbove(c: Comparator, safe: Version) returns (w: Version)
    requires !Unbounded(c)
    ensures Le(safe, w) && !Satisfies(w, c)
  {
    var cap := match c
      case Less(p) => Floor(p)
      case AtMost(p) => Next(p)
      case Exactly(p) => Next(p)
      case Hyphen(_, b) => Next(b)
      case Caret(p) => CaretCap(p)
      case Tilde(p) => TildeCap(p)
      case _ => ZERO;
    w := Later(safe, cap);
  }

  /** With a `>=` or `^` token the rendered floor is a sub-range that starts at the safe version. */
  lemma RenderedFloorNarrows(tokens: seq<Comparator>, safe: Version, v: Version)
    requires FloorToken(tokens) < |tokens| && SatisfiesAll(safe, tokens)
    requires SatisfiesAll(v, RenderSafeFloor(tokens, safe))
    ensures SatisfiesAll(v, tokens) && Le(safe, v)
  {
    var i := FloorToken(tokens);
    var rendered := RenderSafeFloor(tokens, safe);
    assert Satisfies(v, rendered[i]) && Satisfies(safe, tokens[i]);
    if tokens[i].Caret? {
      CaretNarrows(tokens[i].p, safe, v);
    } else {
      UnboundedUp(safe, v, tokens[i]);
    }
    forall k | 0 <= k < |tokens| ensures Satisfies(v, tokens[k]) {
      assert Satisfies(v, rendered[k]);
    }
  }

  /** The rendered floor still admits the safe version it was built around. */
  lemma RenderedFloorAdmitsSafe(tokens: seq<Comparator>, safe: Version)
    requires SatisfiesAll(safe, tokens)
    ensures SatisfiesAll(safe, RenderSafeFloor(tokens, safe))
  {
    var i := FloorToken(tokens);
    var rendered := RenderSafeFloor(tokens, safe);
    forall k | 0 <= k < |rendered| ensures Satisfies(safe, rendered[k]) {
      if i < |tokens| && k != i {
        assert Satisfies(safe, tokens[k]);
      }
    }
  }

  /**
   The exact condition for the suggestion to be a drop-in: it admits only what the original range
   did if and only if the specifier has a `>=` or `^` token, or has nothing bounding it from above.
   */
  lemma RenderedFloorExactly(tokens: seq<Comparator>, safe: Version)
    requires SatisfiesAll(safe, tokens)
    ensures (forall v :: SatisfiesAll(v, RenderSafeFloor(tokens, safe)) ==> SatisfiesAll(v, tokens))
            <==> FloorToken(tokens) < |tokens| || (forall k :: 0 <= k < |tokens| ==> Unbounded(tokens[k]))
  {
    if FloorToken(tokens) < |tokens| {
      forall v | SatisfiesAll(v, RenderSafeFloor(tokens, safe)) ensures SatisfiesAll(v, tokens) {
        RenderedFloorNarrows(tokens, safe, v);
      }
    } else if forall k :: 0 <= k < |tokens| ==> Unbounded(tokens[k]) {
      forall v | SatisfiesAll(v, RenderSafeFloor(tokens, safe)) ensures SatisfiesAll(v, tokens) {
        assert Satisfies(v, RenderSafeFloor(tokens, safe)[0]);
        forall k | 0 <= k < |tokens| ensures Satisfies(v, tokens[k]) {
          UnboundedUp(safe, v, tokens[k]);
        }
      }
    } else {
      var k :| 0 <= k < |tokens| && !Unbounded(tokens[k]);
      var w := BoundedAbove(tokens[k], safe);
      assert SatisfiesAll(w, RenderSafeFloor(tokens, safe));
      assert !Satisfies(w, tokens[k]);
    }
  }

  /** Applying the suggested floor leaves no published release that is vulnerable. */
  lemma RenderedFloorIsSound(published: seq<Published>, tokens: seq<Comparator>, vulnerable: seq<Version>, v: Version)
    requires var admitted := Admitted(published, tokens);
             && vulnerable != [] && (forall w :: w in vulnerable ==> w in admitted)
             && CleanAbove(admitted, Sort(Le, vulnerable)[|vulnerable| - 1]) != []
             && FloorToken(tokens) < |tokens|
             && Release(v) in published
             && SatisfiesAll(v, RenderSafeFloor(tokens,
                                                CleanAbove(admitted, Sort(Le, vulnerable)[|vulnerable| - 1])[0]))
    ensures v in Admitted(published, tokens) && v !in vulnerable
  {
    var admitted := Admitted(published, tokens);
    AdmittedExactly(published, tokens);
    assert vulnerable[0] in admitted;
    SafeVersionLeast(admitted, vulnerable);
    var safe := CleanAbove(admitted, Sort(Le, vulnerable)[|vulnerable| - 1])[0];
    assert safe in admitted;
    RenderedFloorNarrows(tokens, safe, v);
  }

  // ---------------------------------------------------------------------------------------
  // Quarantine
  // ---------------------------------------------------------------------------------------

  /** A candidate with a known expiry still in the future. */
  predicate StillWaiting(source: Source, package: string, v: Version, minutes: int, now: int) {
    match QuarantineExpiry(source, package, v, minutes, now)
    case Ok(Some(expiry)) => expiry > now
    case _ => false
  }

  function ExpiryOf(source: Source, package: string, v: Version, minutes: int, now: int): int
    requires StillWaiting(source, package, v, minutes, now)
  {
    QuarantineExpiry(source, package, v, minutes, now).value.value
  }

  lemma {:induction false} JudgeExactly(source: Source, package: string, candidates: seq<Version>, minutes: int,
                                        now: int,
                                        earliest: Option<(int, Version)>)
    requires candidates == [] ==> earliest.Some?
    ensures var w := JudgeFrom(source, package, candidates, minutes, now, earliest);
            && (w.Waiting? <==> forall i :: 0 <= i < |candidates| ==>
                StillWaiting(source, package, candidates[i], minutes, now))
            && (w.Waiting? ==>
                  && (earliest.Some? ==> w.expiry <= earliest.value.0)
                  && (forall i :: 0 <= i < |candidates| ==>
                      w.expiry <= ExpiryOf(source, package, candidates[i], minutes, now))
                  && ((earliest.Some? && (w.expiry, w.v) == earliest.value)
                      || (w.v in candidates && StillWaiting(source, package, w.v, minutes, now)
                          && w.expiry == ExpiryOf(source, package, w.v, minutes, now))))
    decreases |candidates|
  {
    if candidates != [] {
      var c := candidates[0];
      if StillWaiting(source, package, c, minutes, now) {
        var expiry := ExpiryOf(source, package, c, minutes, now);
        var next := if earliest.None? || expiry < earliest.value.0 then Some((expiry, c)) else earliest;
        JudgeExactly(source, package, candidates[1..], minutes, now, next);
        assert forall i :: 0 < i < |candidates| ==> candidates[1..][i - 1] == candidates[i];
        assert forall i :: 0 <= i < |candidates[1..]| ==> candidates[1..][i] == candidates[i + 1];
      }
    }
  }

  /** The clean candidates a finding's verdict is judged over. */
  function CandidatesOf(finding: Finding): seq<Version>
    requires finding.vulnerable != []
  {
    CleanAbove(finding.record.admitted, finding.vulnerable[|finding.vulnerable| - 1])
  }

  /**
   Quarantined exactly when a quarantine is set, a clean version exists and every clean version has
   a known expiry after `now`; the reported time is the least expiry and belongs to the reported version.
   */
  lemma QuarantinedExactly(source: Source, o: Override, finding: Finding, minutes: Option<int>, now: int)
    requires finding.vulnerable != []
    ensures var a := JudgeFinding(source, o, finding, minutes, now).verdict;
            var clean := CandidatesOf(finding);
            && (a.Quarantined? <==>
                  minutes.Some? && clean != []
                  && forall i :: 0 <= i < |clean| ==> StillWaiting(source, o.subject, clean[i], minutes.value, now))
            && (!a.Quarantined? ==> a == Stale(finding))
            && (a.Quarantined? ==>
                  && a.finding == finding
                  && a.safeVersion in clean
                  && StillWaiting(source, o.subject, a.safeVersion, minutes.value, now)
                  && a.installableAt == ExpiryOf(source, o.subject, a.safeVersion, minutes.value, now)
                  && forall i :: 0 <= i < |clean| ==>
                       a.installableAt <= ExpiryOf(source, o.subject, clean[i], minutes.value, now))
  {
    var clean := CandidatesOf(finding);
    if clean != [] && minutes.Some? {
      JudgeExactly(source, o.subject, clean, minutes.value, now, None);
    }
  }

  /** A known expiry does not move as the clock advances over an unchanged registry. */
  lemma ExpiryFixed(source: Source, package: string, v: Version, minutes: int, now: int, later: int)
    requires now <= later && StillWaiting(source, package, v, minutes, now)
    ensures StillWaiting(source, package, v, minutes, later) <==> later < ExpiryOf(source, package, v, minutes, now)
    ensures StillWaiting(source, package, v, minutes, later) ==>
              ExpiryOf(source, package, v, minutes, later) == ExpiryOf(source, package, v, minutes, now)
  {}

  /**
   Self-clearing: with the registry unchanged a quarantined verdict stays the same verdict until the
   instant it reports, and is stale from that instant on.
   */
  lemma QuarantineClears(source: Source, o: Override, finding: Finding, minutes: Option<int>, now: int, later: int)
    requires finding.vulnerable != [] && now <= later
    requires JudgeFinding(source, o, finding, minutes, now).verdict.Quarantined?
    ensures var a := JudgeFinding(source, o, finding, minutes, now).verdict;
            var b := JudgeFinding(source, o, finding, minutes, later).verdict;
            && (later < a.installableAt ==> b.Quarantined? && b.installableAt == a.installableAt)
            && (later >= a.installableAt ==> b == Stale(finding))
  {
    var clean := CandidatesOf(finding);
    var a := JudgeFinding(source, o, finding, minutes, now).verdict;
    QuarantinedExactly(source, o, finding, minutes, now);
    QuarantinedExactly(source, o, finding, minutes, later);
    forall v | v in clean
      ensures StillWaiting(source, o.subject, v, minutes.value, later)
              <==> later < ExpiryOf(source, o.subject, v, minutes.value, now)
      ensures StillWaiting(source, o.subject, v, minutes.value, later) ==>
                ExpiryOf(source, o.subject, v, minutes.value, later)
                    == ExpiryOf(source, o.subject, v, minutes.value, now)
    {
      ExpiryFixed(source, o.subject, v, minutes.value, now, later);
    }
    assert later < a.installableAt ==> forall i :: 0 <= i < |clean| ==> clean[i] in clean;
    if later >= a.installableAt {
      var i :| 0 <= i < |clean| && clean[i] == a.safeVersion;
      assert !StillWaiting(source, o.subject, clean[i], minutes.value, later);
    } else {
      var b := JudgeFinding(source, o, finding, minutes, later).verdict;
      assert b.Quarantined?;
      var i :| 0 <= i < |clean| && clean[i] == a.safeVersion;
      assert b.installableAt <= ExpiryOf(source, o.subject, clean[i], minutes.value, later);
      var j :| 0 <= j < |clean| && clean[j] == b.safeVersion;
      assert a.installableAt <= ExpiryOf(source, o.subject, clean[j], minutes.value, now);
    }
  }

  // ---------------------------------------------------------------------------------------
  // Collected advisories
  // ---------------------------------------------------------------------------------------

  function KeyOf(a: Advisory): string {
    Text.ToUpper(a.ghsa)
  }

  function FirstWith(list: seq<Advisory>, key: string): Option<Advisory> {
    if list == [] then None else if KeyOf(list[0]) == key then Some(list[0]) else FirstWith(list[1..], key)
  }

  function LastWith(list: seq<Advisory>, key: string): Option<Advisory> {
    if list == [] then None
    else if KeyOf(list[|list| - 1]) == key then Some(list[|list| - 1])
    else LastWith(list[..|list| - 1], key)
  }

  predicate DistinctKeys(list: seq<Advisory>) {
    forall i, j :: 0 <= i < j < |list| ==> KeyOf(list[i]) != KeyOf(list[j])
  }

  lemma {:induction false} PutLookup(entries: seq<Advisory>, a: Advisory, key: string)
    ensures FirstWith(Put(entries, a), key) == if key == KeyOf(a) then Some(a) else FirstWith(entries, key)
  {
    if entries != [] && KeyOf(entries[0]) != KeyOf(a) {
      PutLookup(entries[1..], a, key);
    }
  }

  lemma {:induction false} FirstWithMembers(list: seq<Advisory>, key: string)
    ensures FirstWith(list, key).Some? ==>
            FirstWith(list, key).value in list && KeyOf(FirstWith(list, key).value) == key
    ensures FirstWith(list, key).Some? <==> Has(list, key)
  {
    if list != [] && KeyOf(list[0]) != key {
      FirstWithMembers(list[1..], key);
      assert Has(list, key) <==> Has(list[1..], key) by {
        assert forall i :: 0 <= i < |list[1..]| ==> list[1..][i] == list[i + 1];
        if Has(list, key) {
          var i :| 0 <= i < |list| && Text.ToUpper(list[i].ghsa) == key;
          assert list[1..][i - 1] == list[i];
        }
      }
    }
  }

  lemma {:induction false} PutKeepsDistinct(entries: seq<Advisory>, a: Advisory)
    requires DistinctKeys(entries)
    ensures DistinctKeys(Put(entries, a))
    ensures forall x :: x in Put(entries, a) ==> x == a || x in entries
  {
    if entries != [] && KeyOf(entries[0]) != KeyOf(a) {
      PutKeepsDistinct(entries[1..], a);
      var rest := Put(entries[1..], a);
      forall j | 0 <= j < |rest| ensures KeyOf(entries[0]) != KeyOf(rest[j]) {
        assert rest[j] in rest;
        if rest[j] in entries[1..] {
          var k :| 0 <= k < |entries[1..]| && entries[1..][k] == rest[j];
          assert entries[k + 1] == rest[j];
        }
      }
    }
  }

  lemma {:induction false} PutAllLookup(entries: seq<Advisory>, global: seq<Advisory>, key: string)
    requires DistinctKeys(entries)
    ensures DistinctKeys(PutAll(entries, global))
    ensures FirstWith(PutAll(entries, global), key)
         == if LastWith(global, key).Some? then LastWith(global, key) else FirstWith(entries, key)
    decreases |global|
  {
    if global != [] {
      PutKeepsDistinct(entries, global[0]);
      PutAllLookup(Put(entries, global[0]), global[1..], key);
      PutLookup(entries, global[0], key);
      LastWithCons(global, key);
    }
  }

  lemma {:induction false} LastWithCons(list: seq<Advisory>, key: string)
    requires list != []
    ensures LastWith(list, key)
         == if LastWith(list[1..], key).Some? then LastWith(list[1..], key)
            else if KeyOf(list[0]) == key then Some(list[0]) else None
    decreases |list|
  {
    if |list| > 1 {
      assert list[1..][|list[1..]| - 1] == list[|list| - 1];
      assert list[..|list| - 1][1..] == list[1..][..|list[1..]| - 1];
      LastWithCons(list[..|list| - 1], key);
    }
  }

  lemma {:induction false} PutNewLookup(entries: seq<Advisory>, upstream: seq<Advisory>, key: string)
    requires DistinctKeys(entries)
    ensures DistinctKeys(PutNew(entries, upstream))
    ensures FirstWith(PutNew(entries, upstream), key)
         == if FirstWith(entries, key).Some? then FirstWith(entries, key) else FirstWith(upstream, key)
    decreases |upstream|
  {
    if upstream != [] {
      var a := upstream[0];
      var next := if Has(entries, KeyOf(a)) then entries else Put(entries, a);
      PutKeepsDistinct(entries, a);
      PutNewLookup(next, upstream[1..], key);
      PutLookup(entries, a, key);
      FirstWithMembers(entries, KeyOf(a));
    }
  }

  /**
   Where both databases carry an id the global record stands alone (the last one listed); an
   upstream record is used exactly for an id the global database lacks; no id appears twice.
   */
  lemma GlobalRecordWins(global: seq<Advisory>, upstream: seq<Advisory>, key: string)
    ensures var all := PutNew(PutAll([], global), upstream);
            && DistinctKeys(all)
            && FirstWith(all, key) == if LastWith(global, key).Some? then LastWith(global, key)
               else FirstWith(upstream, key)
  {
    PutAllLookup([], global, key);
    PutNewLookup(PutAll([], global), upstream, key);
  }

  // ---------------------------------------------------------------------------------------
  // Exit 0
  // ---------------------------------------------------------------------------------------

  lemma {:induction false} ToSemverRangesExactly(ranges: seq<RangeText>)
    requires ToSemverRanges(ranges).Some?
    ensures |ToSemverRanges(ranges).value| == |ranges|
    ensures forall i :: 0 <= i < |ranges| ==>
              AdvisoryRanges.Normalized(ranges[i]) == Ok(ToSemverRanges(ranges).value[i])
  {
    if ranges != [] {
      ToSemverRangesExactly(ranges[1..]);
      assert forall i :: 0 < i < |ranges| ==> ranges[i] == ranges[1..][i - 1];
    }
  }

  lemma {:induction false} ValidateAllExactly(key: string, advisories: seq<Advisory>)
    requires ValidateAll(key, advisories).Ok?
    ensures var all := ValidateAll(key, advisories).value;
            && |all| == |advisories|
            && forall i :: 0 <= i < |advisories| ==>
                 all[i].advisory == advisories[i] && ToSemverRanges(advisories[i].ranges) == Some(all[i].ranges)
  {
    if advisories != [] {
      ValidateAllExactly(key, advisories[1..]);
      assert forall i :: 0 < i < |advisories| ==> advisories[i] == advisories[1..][i - 1];
    }
  }

  /** No collected, non-allowlisted advisory matches a release the floor admits. */
  ghost predicate NothingMatches(policy: Policy, subject: string, advisories: seq<Advisory>, v: Version) {
    forall i, k ::
      (&& 0 <= i < |advisories| && 0 <= k < |advisories[i].ranges|
       && !Allowlisted(policy, subject, advisories[i].ghsa)) ==>
      AdvisoryRanges.Normalized(advisories[i].ranges[k]).Ok?
      && !Reading.Accepts(AdvisoryRanges.Normalized(advisories[i].ranges[k]).value, v)
  }

  /** The upstream-repository leg ran, or doing without it is declared. */
  predicate FullyCovered(policy: Policy, source: Source, subject: string) {
    || Declared(policy.globalDbOnly, subject)
    || (source.upstreamRepo(subject).Ok? && source.upstreamRepo(subject).value.Some?
        && source.repoAdvisories(source.upstreamRepo(subject).value.value, subject).Fetched?)
  }

  ghost predicate FloorSound(policy: Policy, source: Source, o: Override) {
    && ReadableFloor(o.specifier)
    && source.listVersions(o.subject).Ok?
    && Collected(source, o.subject, Declared(policy.globalDbOnly, o.subject)).advisories.Ok?
    && forall v :: Release(v) in source.listVersions(o.subject).value && SatisfiesAll(v, o.specifier.tokens) ==>
         NothingMatches(policy, o.subject,
                        Collected(source, o.subject, Declared(policy.globalDbOnly, o.subject)).advisories.value, v)
  }

  lemma UnhitMeansNothingMatches(policy: Policy, key: string, subject: string, advisories: seq<Advisory>, v: Version)
    requires ValidateAll(key, advisories).Ok?
    requires !HitBy(v, Effective(policy, subject, ValidateAll(key, advisories).value))
    ensures NothingMatches(policy, subject, advisories, v)
  {
    var all := ValidateAll(key, advisories).value;
    var effective := Effective(policy, subject, all);
    ValidateAllExactly(key, advisories);
    forall i, k | 0 <= i < |advisories| && 0 <= k < |advisories[i].ranges|
        && !Allowlisted(policy, subject, advisories[i].ghsa)
      ensures AdvisoryRanges.Normalized(advisories[i].ranges[k]).Ok?
      ensures !Reading.Accepts(AdvisoryRanges.Normalized(advisories[i].ranges[k]).value, v)
    {
      ToSemverRangesExactly(advisories[i].ranges);
      assert all[i] in effective;
      var j :| 0 <= j < |effective| && effective[j] == all[i];
      assert !MatchesAny(v, effective[j].ranges);
    }
  }

  predicate AdvisoriesAccepted(policy: Policy, source: Source, o: Override) {
    var c := Collected(source, o.subject, Declared(policy.globalDbOnly, o.subject));
    && c.advisories.Ok?
    && (c.advisories.value != [] || Declared(policy.noAdvisoryExpected, o.key))
    && ValidateAll(o.key, c.advisories.value).Ok?
  }

  function EffectiveFor(policy: Policy, source: Source, o: Override): seq<Validated>
    requires Collected(source, o.subject, Declared(policy.globalDbOnly, o.subject)).advisories.Ok?
    requires ValidateAll(o.key,
                         Collected(source, o.subject, Declared(policy.globalDbOnly, o.subject)).advisories.value).Ok?
  {
    Effective(policy, o.subject,
              ValidateAll(o.key, Collected(source, o.subject,
                                           Declared(policy.globalDbOnly, o.subject)).advisories.value).value)
  }

  /** A verdict is clean exactly when everything was read and no admitted release is hit. */
  lemma CleanExactly(policy: Policy, source: Source, o: Override, minutes: Option<int>, now: int)
    ensures AuditOne(policy, source, o, minutes, now).verdict.Clean? <==>
              && ReadableFloor(o.specifier) && source.listVersions(o.subject).Ok?
                 && AdvisoriesAccepted(policy, source, o)
              && var admitted := Admitted(source.listVersions(o.subject).value, o.specifier.tokens);
                 admitted != [] && TallyHits(Tally([], []), admitted, EffectiveFor(policy, source, o)).vulnerable == []
  {}

  /** A clean verdict means the floor protects: everything published at or above it is unmatched. */
  lemma CleanIsSound(policy: Policy, source: Source, o: Override)
    requires ReadableFloor(o.specifier) && source.listVersions(o.subject).Ok? && AdvisoriesAccepted(policy, source, o)
    requires var admitted := Admitted(source.listVersions(o.subject).value, o.specifier.tokens);
             TallyHits(Tally([], []), admitted, EffectiveFor(policy, source, o)).vulnerable == []
    ensures FloorSound(policy, source, o)
  {
    var published := source.listVersions(o.subject).value;
    var admitted := Admitted(published, o.specifier.tokens);
    var advisories := Collected(source, o.subject, Declared(policy.globalDbOnly, o.subject)).advisories.value;
    AdmittedExactly(published, o.specifier.tokens);
    forall v | Release(v) in published && SatisfiesAll(v, o.specifier.tokens)
      ensures NothingMatches(policy, o.subject, advisories, v)
    {
      TallyExactly(Tally([], []), admitted, EffectiveFor(policy, source, o), v);
      UnhitMeansNothingMatches(policy, o.key, o.subject, advisories, v);
    }
  }

  lemma QuietMeansCovered(policy: Policy, source: Source, o: Override, minutes: Option<int>, now: int)
    requires !AuditOne(policy, source, o, minutes, now).verdict.Errored?
    requires AuditOne(policy, source, o, minutes, now).notes == []
    ensures FullyCovered(policy, source, o.subject)
  {
    var c := Collected(source, o.subject, Declared(policy.globalDbOnly, o.subject));
    assert c.advisories.Ok?;
    assert c.notes <= AuditOne(policy, source, o, minutes, now).notes;
  }

  /** What a finding's fields are: the admitted releases, the matched ones, and a floor from the first clean one. */
  lemma FindingMeans(policy: Policy, source: Source, o: Override, minutes: Option<int>, now: int)
    requires var v := AuditOne(policy, source, o, minutes, now).verdict; v.Stale? || v.Quarantined?
    ensures Collected(source, o.subject, Declared(policy.globalDbOnly, o.subject)).advisories.Ok?
    ensures ValidateAll(o.key,
                        Collected(source, o.subject, Declared(policy.globalDbOnly, o.subject)).advisories.value).Ok?
    ensures ReadableFloor(o.specifier) && source.listVersions(o.subject).Ok? && AdvisoriesAccepted(policy, source, o)
    ensures var f := AuditOne(policy, source, o, minutes, now).verdict.finding;
            var admitted := Admitted(source.listVersions(o.subject).value, o.specifier.tokens);
            var tally := TallyHits(Tally([], []), admitted, EffectiveFor(policy, source, o));
            && tally.vulnerable != []
            && (AuditOne(policy, source, o, minutes, now).verdict.Quarantined? ==>
                  AuditOne(policy, source, o, minutes, now).verdict.installableAt > now)
            && f == FindingOf(Checked(o.key, o.subject, o.specifier, admitted), o.specifier.tokens, tally)
  {
    var admitted := Admitted(source.listVersions(o.subject).value, o.specifier.tokens);
    var tally := TallyHits(Tally([], []), admitted, EffectiveFor(policy, source, o));
    var finding := FindingOf(Checked(o.key, o.subject, o.specifier, admitted), o.specifier.tokens, tally);
    QuarantinedExactly(source, o, finding, minutes, now);
  }

  /** Where one verdict is reported. */
  predicate Filed(r: Report, a: Audited) {
    match a.verdict
    case Errored(e) => e in r.errors
    case Clean(record) => record in r.checked
    case Stale(f) => f.record in r.checked && f in r.stale
    case Quarantined(f, v, at) => f.record in r.checked && (f, v, at) in r.quarantined
  }

  function Count(p: Verdict -> bool, audits: seq<Audited>): nat {
    if audits == [] then 0 else (if p(audits[0].verdict) then 1 else 0) + Count(p, audits[1..])
  }

  predicate Extends(r: Report, r': Report) {
    r.errors <= r'.errors && r.checked <= r'.checked && r.stale <= r'.stale
    && r.quarantined <= r'.quarantined && r.degraded <= r'.degraded
  }

  lemma {:induction false} FileAllFiles(r: Report, audits: seq<Audited>)
    ensures Extends(r, FileAll(r, audits))
    ensures forall i :: 0 <= i < |audits| ==> Filed(FileAll(r, audits), audits[i])
    decreases |audits|
  {
    if audits != [] {
      var mid := File(r, audits[0]);
      FileAllFiles(mid, audits[1..]);
      assert Filed(mid, audits[0]);
      ExtendsKeepsFiled(mid, FileAll(r, audits), audits[0]);
      assert forall i :: 0 < i < |audits| ==> audits[i] == audits[1..][i - 1];
    }
  }

  /** Every verdict is filed once: the report's lists are in number exactly the verdicts of each kind. */
  lemma {:induction false} FileAllCounts(r: Report, audits: seq<Audited>)
    ensures |FileAll(r, audits).errors| == |r.errors| + Count((v: Verdict) => v.Errored?, audits)
    ensures |FileAll(r, audits).stale| == |r.stale| + Count((v: Verdict) => v.Stale?, audits)
    ensures |FileAll(r, audits).quarantined| == |r.quarantined| + Count((v: Verdict) => v.Quarantined?, audits)
    ensures |FileAll(r, audits).errors| + |FileAll(r, audits).checked| == |r.errors| + |r.checked| + |audits|
    decreases |audits|
  {
    if audits != [] {
      FileAllCounts(File(r, audits[0]), audits[1..]);
    }
  }

  lemma {:induction false} FileAllQuiet(r: Report, audits: seq<Audited>)
    ensures FileAll(r, audits).degraded == []
            <==> r.degraded == [] && forall i :: 0 <= i < |audits| ==> audits[i].notes == []
    decreases |audits|
  {
    if audits != [] {
      FileAllQuiet(File(r, audits[0]), audits[1..]);
      assert forall i :: 0 < i < |audits| ==> audits[i] == audits[1..][i - 1];
      assert forall i :: 0 <= i < |audits[1..]| ==> audits[1..][i] == audits[i + 1];
    }
  }

  lemma ExtendsKeepsFiled(r: Report, r': Report, a: Audited)
    requires Extends(r, r') && Filed(r, a)
    ensures Filed(r', a)
  {}

  lemma {:induction false} CountZero(p: Verdict -> bool, audits: seq<Audited>)
    ensures Count(p, audits) == 0 <==> forall i :: 0 <= i < |audits| ==> !p(audits[i].verdict)
  {
    if audits != [] {
      CountZero(p, audits[1..]);
      assert forall i :: 0 < i < |audits| ==> audits[i] == audits[1..][i - 1];
      assert forall i :: 0 <= i < |audits[1..]| ==> audits[1..][i] == audits[i + 1];
    }
  }

  function MinutesOf(ws: Workspace): Option<int> {
    var age := ParseMinimumReleaseAge(ws.age);
    if age.Ok? then age.value else None
  }

  predicate Passing(a: Audited) {
    (a.verdict.Clean? || a.verdict.Quarantined?) && a.notes == []
  }

  lemma CloseExactly(start: Report, audits: seq<Audited>)
    requires start.stale == [] && start.degraded == []
    ensures Close(FileAll(start, audits)).exitCode == 0 <==>
              start.errors == [] && forall i :: 0 <= i < |audits| ==> Passing(audits[i])
  {
    FileAllCounts(start, audits);
    FileAllQuiet(start, audits);
    CountZero((v: Verdict) => v.Errored?, audits);
    CountZero((v: Verdict) => v.Stale?, audits);
  }

  /** Exit 0 exactly when everything was readable and every override is clean or quarantined, with full coverage. */
  lemma ExitZeroExactly(policy: Policy, source: Source, ws: Workspace, now: int)
    ensures Audit(policy, source, ws, now).exitCode == 0 <==>
              && PolicyValid(policy) && ParseMinimumReleaseAge(ws.age).Ok? && ws.overrides.Some?
              && forall i :: 0 <= i < |ws.overrides.value| ==>
                   Passing(AuditOne(policy, source, ws.overrides.value[i], MinutesOf(ws), now))
  {
    if PolicyValid(policy) && ws.overrides.Some? {
      var age := ParseMinimumReleaseAge(ws.age);
      var start := Report([], [], [], if age.Err? then [age.error] else [], [], 0);
      var audits := AuditEach(policy, source, ws.overrides.value, MinutesOf(ws), now);
      CloseExactly(start, audits);
      forall i | 0 <= i < |audits|
        ensures Passing(audits[i]) <==> Passing(AuditOne(policy, source, ws.overrides.value[i], MinutesOf(ws), now))
      {}
    }
  }

  /** What is written down about an override once its floor and its releases have been read. */
  function RecordOf(source: Source, o: Override): Checked
    requires o.specifier.Bounds? && source.listVersions(o.subject).Ok?
  {
    Checked(o.key, o.subject, o.specifier, Admitted(source.listVersions(o.subject).value, o.specifier.tokens))
  }

  lemma CleanJudged(policy: Policy, source: Source, o: Override, admitted: seq<Version>, advisories: seq<Advisory>,
                    minutes: Option<int>, now: int)
    requires o.specifier.Bounds?
             && JudgeAdvisories(policy, source, o, admitted, advisories, minutes, now).verdict.Clean?
    ensures JudgeAdvisories(policy, source, o, admitted, advisories, minutes, now).verdict.record
         == Checked(o.key, o.subject, o.specifier, admitted)
  {}

  lemma CleanRecord(policy: Policy, source: Source, o: Override, minutes: Option<int>, now: int)
    requires AuditOne(policy, source, o, minutes, now).verdict.Clean?
    ensures o.specifier.Bounds? && source.listVersions(o.subject).Ok?
    ensures AuditOne(policy, source, o, minutes, now).verdict.record == RecordOf(source, o)
  {
    var advisories := Collected(source, o.subject, Declared(policy.globalDbOnly, o.subject)).advisories;
    CleanJudged(policy, source, o, RecordOf(source, o).admitted, advisories.value, minutes, now);
  }

  /** A verdict carries its own override's record, and a quarantine that has not expired. */
  lemma VerdictRecord(policy: Policy, source: Source, o: Override, minutes: Option<int>, now: int)
    ensures var v := AuditOne(policy, source, o, minutes, now).verdict;
            v.Errored? ||
            (&& o.specifier.Bounds? && source.listVersions(o.subject).Ok?
             && (v.Clean? ==> v.record == RecordOf(source, o))
             && (v.Stale? || v.Quarantined? ==> v.finding.record == RecordOf(source, o))
             && (v.Quarantined? ==> v.installableAt > now))
  {
    var v := AuditOne(policy, source, o, minutes, now).verdict;
    if v.Clean? {
      CleanRecord(policy, source, o, minutes, now);
    } else if !v.Errored? {
      FindingMeans(policy, source, o, minutes, now);
    }
  }

  /** The verdict on the i-th override is in the report. */
  lemma VerdictFiled(policy: Policy, source: Source, ws: Workspace, now: int, i: nat)
    requires Audit(policy, source, ws, now).exitCode == 0 && ws.overrides.Some? && i < |ws.overrides.value|
    ensures Filed(Audit(policy, source, ws, now), AuditOne(policy, source, ws.overrides.value[i], MinutesOf(ws), now))
    ensures |Audit(policy, source, ws, now).checked| == |ws.overrides.value|
  {
    ExitZeroExactly(policy, source, ws, now);
    var start := Report([], [], [], [], [], 0);
    var audits := AuditEach(policy, source, ws.overrides.value, MinutesOf(ws), now);
    FileAllFiles(start, audits);
    FileAllCounts(start, audits);
    assert audits[i] == AuditOne(policy, source, ws.overrides.value[i], MinutesOf(ws), now);
  }

  /** Reported as waiting: the override's own record, under a quarantine that has not expired. */
  predicate ReportedWaiting(r: Report, record: Checked, now: int) {
    exists i :: 0 <= i < |r.quarantined| && r.quarantined[i].0.record == record && r.quarantined[i].2 > now
  }

  /**
   Main result.  A run that exits 0 checked every override, and for each one either reports it
   quarantined or no published release its floor admits matches any collected, non-allowlisted
   advisory, with the upstream-repository leg read wherever it was not declared away.
   */
  lemma ExitZeroIsSound(policy: Policy, source: Source, ws: Workspace, now: int, i: nat)
    requires Audit(policy, source, ws, now).exitCode == 0 && i < |ws.overrides.value|
    ensures ws.overrides.Some?
    ensures var o, r := ws.overrides.value[i], Audit(policy, source, ws, now);
            && FullyCovered(policy, source, o.subject)
            && o.specifier.Bounds? && source.listVersions(o.subject).Ok? && RecordOf(source, o) in r.checked
            && (FloorSound(policy, source, o) || ReportedWaiting(r, RecordOf(source, o), now))
    ensures |Audit(policy, source, ws, now).checked| == |ws.overrides.value|
  {
    ExitZeroExactly(policy, source, ws, now);
    VerdictFiled(policy, source, ws, now, i);
    var o := ws.overrides.value[i];
    var v := AuditOne(policy, source, o, MinutesOf(ws), now).verdict;
    VerdictRecord(policy, source, o, MinutesOf(ws), now);
    QuietMeansCovered(policy, source, o, MinutesOf(ws), now);
    if v.Clean? {
      CleanExactly(policy, source, o, MinutesOf(ws), now);
      CleanIsSound(policy, source, o);
    }
  }

  // ---------------------------------------------------------------------------------------
  // Applying the suggestion
  // ---------------------------------------------------------------------------------------

  /** A suggested floor admits the safe version and nothing any effective advisory matches. */
  lemma SuggestionUnhit(published: seq<Published>, tokens: seq<Comparator>, effective: seq<Validated>)
    requires var tally := TallyHits(Tally([], []), Admitted(published, tokens), effective);
             && tally.vulnerable != [] && FloorToken(tokens) < |tokens|
             && CleanAbove(Admitted(published, tokens), Sort(Le, tally.vulnerable)[|tally.vulnerable| - 1]) != []
    ensures var tally := TallyHits(Tally([], []), Admitted(published, tokens), effective);
            var safe := CleanAbove(Admitted(published, tokens), Sort(Le, tally.vulnerable)[|tally.vulnerable| - 1])[0];
            var suggested := RenderSafeFloor(tokens, safe);
            && Admitted(published, suggested) != []
            && TallyHits(Tally([], []), Admitted(published, suggested), effective).vulnerable == []
  {
    var admitted := Admitted(published, tokens);
    var vulnerable := TallyHits(Tally([], []), admitted, effective).vulnerable;
    forall v ensures v in vulnerable <==> v in admitted && HitBy(v, effective) {
      TallyExactly(Tally([], []), admitted, effective, v);
    }
    var clean := CleanAbove(admitted, Sort(Le, vulnerable)[|vulnerable| - 1]);
    var suggested := RenderSafeFloor(tokens, clean[0]);
    AdmittedExactly(published, tokens);
    AdmittedExactly(published, suggested);
    assert clean[0] in clean;
    RenderedFloorAdmitsSafe(tokens, clean[0]);
    assert clean[0] in Admitted(published, suggested);
    var left := TallyHits(Tally([], []), Admitted(published, suggested), effective).vulnerable;
    assert left == [] || left[0] in left;
    forall v ensures v !in left {
      TallyExactly(Tally([], []), Admitted(published, suggested), effective, v);
      if v in left {
        RenderedFloorIsSound(published, tokens, vulnerable, v);
      }
    }
  }

  lemma RenderedIsReadable(tokens: seq<Comparator>, safe: Version)
    requires ReadableFloor(Bounds(tokens))
    ensures ReadableFloor(Bounds(RenderSafeFloor(tokens, safe)))
  {}

  /** The same override under another floor is judged by the same advisories. */
  lemma SameAdvisories(policy: Policy, source: Source, o: Override, specifier: Specifier)
    requires AdvisoriesAccepted(policy, source, o)
    ensures AdvisoriesAccepted(policy, source, o.(specifier := specifier))
    ensures EffectiveFor(policy, source, o.(specifier := specifier)) == EffectiveFor(policy, source, o)
  {}

  /**
   The advice is right: for a specifier with a `>=` or `^` token, writing the suggested floor into
   the workspace and auditing again over the same registry gives a clean verdict.
   */
  lemma ApplyingTheSuggestionIsClean(policy: Policy, source: Source, o: Override, minutes: Option<int>, now: int)
    requires var v := AuditOne(policy, source, o, minutes, now).verdict; v.Stale? || v.Quarantined?
    requires o.specifier.Bounds? && FloorToken(o.specifier.tokens) < |o.specifier.tokens|
    requires AuditOne(policy, source, o, minutes, now).verdict.finding.safeFloor.Some?
    ensures var floor := AuditOne(policy, source, o, minutes, now).verdict.finding.safeFloor.value;
            AuditOne(policy, source, o.(specifier := Bounds(floor)), minutes, now).verdict.Clean?
  {
    FindingMeans(policy, source, o, minutes, now);
    var tally := TallyHits(Tally([], []), RecordOf(source, o).admitted, EffectiveFor(policy, source, o));
    SuggestedIsClean(policy, source, o, tally, minutes, now);
  }

  lemma SuggestedIsClean(policy: Policy, source: Source, o: Override, tally: Tally, minutes: Option<int>, now: int)
    requires ReadableFloor(o.specifier) && source.listVersions(o.subject).Ok? && AdvisoriesAccepted(policy, source, o)
    requires FloorToken(o.specifier.tokens) < |o.specifier.tokens|
    requires tally == TallyHits(Tally([], []), RecordOf(source, o).admitted, EffectiveFor(policy, source, o))
    requires tally.vulnerable != [] && FindingOf(RecordOf(source, o), o.specifier.tokens, tally).safeFloor.Some?
    ensures var floor := FindingOf(RecordOf(source, o), o.specifier.tokens, tally).safeFloor.value;
            AuditOne(policy, source, o.(specifier := Bounds(floor)), minutes, now).verdict.Clean?
  {
    var published, tokens := source.listVersions(o.subject).value, o.specifier.tokens;
    SuggestionUnhit(published, tokens, EffectiveFor(policy, source, o));
    var safe := CleanAbove(RecordOf(source, o).admitted, Sort(Le, tally.vulnerable)[|tally.vulnerable| - 1])[0];
    var o' := o.(specifier := Bounds(RenderSafeFloor(tokens, safe)));
    RenderedIsReadable(tokens, safe);
    SameAdvisories(policy, source, o, o'.specifier);
    CleanExactly(policy, source, o', minutes, now);
  }

  lemma FloorAbsent(record: Checked, tokens: seq<Comparator>, tally: Tally)
    requires Sorted(Le, record.admitted) && record.admitted != [] && tally.vulnerable != []
    requires forall v :: v in tally.vulnerable ==> v in record.admitted
    ensures var f := FindingOf(record, tokens, tally);
            f.safeFloor.None? <==> record.admitted[|record.admitted| - 1] in f.vulnerable
  {
    SafeVersionLeast(record.admitted, tally.vulnerable);
    SameElements(Sort(Le, tally.vulnerable), tally.vulnerable);
  }

  lemma TallyWithin(admitted: seq<Version>, effective: seq<Validated>)
    ensures var vulnerable := TallyHits(Tally([], []), admitted, effective).vulnerable;
            && (forall v :: v in vulnerable ==> v in admitted)
            && (vulnerable != [] ==> admitted != [])
  {
    var vulnerable := TallyHits(Tally([], []), admitted, effective).vulnerable;
    forall v | v in vulnerable ensures v in admitted {
      TallyExactly(Tally([], []), admitted, effective, v);
    }
    assert vulnerable != [] ==> vulnerable[0] in admitted;
  }

  /** There is no suggestion exactly when the highest admitted release is vulnerable. */
  lemma NoSuggestionExactly(policy: Policy, source: Source, o: Override, minutes: Option<int>, now: int)
    requires var v := AuditOne(policy, source, o, minutes, now).verdict; v.Stale? || v.Quarantined?
    ensures var f := AuditOne(policy, source, o, minutes, now).verdict.finding;
            && f.record.admitted != []
            && (f.safeFloor.None? <==> f.record.admitted[|f.record.admitted| - 1] in f.vulnerable)
  {
    FindingMeans(policy, source, o, minutes, now);
    var published, tokens := source.listVersions(o.subject).value, o.specifier.tokens;
    var admitted, effective := Admitted(published, tokens), EffectiveFor(policy, source, o);
    var tally := TallyHits(Tally([], []), admitted, effective);
    AdmittedExactly(published, tokens);
    TallyWithin(admitted, effective);
    FloorAbsent(Checked(o.key, o.subject, o.specifier, admitted), tokens, tally);
  }
}
