/**
 The override-floor audit: which published releases a floor admits, which advisories apply to
 them, and whether the floor is clean, stale or waiting for a quarantined fix.  The registry and
 the advisory databases are a `Source` of answers, any of which may be a failure.
 */
module OverrideAudit {
  import opened Common
  import opened Semver
  import opened Sorting
  import AdvisoryRanges
  import Reading = AdvisoryReading
  import Text

  // ---------------------------------------------------------------------------------------
  // Data
  // ---------------------------------------------------------------------------------------

  /** A vulnerable-version text, cut at its hard OR boundaries and tokenized. */
  type RangeText = seq<seq<AdvisoryRanges.Token>>

  type Groups = seq<seq<AdvisoryRanges.Atom>>

  datatype Advisory = Advisory(ghsa: string, ranges: seq<RangeText>)

  datatype Published = Release(v: Version) | Prerelease(text: string) | NotSemver(text: string)

  datatype Fetch<T> = Fetched(value: T) | Degraded(note: string) | Failed(note: string)

  /** `publishedAt`: unreported, not a date, or epoch milliseconds. */
  datatype Stamp = Unreported | NotADate | At(ms: int)

  datatype Source = Source(
    listVersions: string -> Result<seq<Published>, string>,
    upstreamRepo: string -> Result<Option<string>, string>,
    globalAdvisories: string -> Result<seq<Advisory>, string>,
    repoAdvisories: (string, string) -> Fetch<seq<Advisory>>,
    publishedAt: (string, Version) -> Result<Stamp, string>)

  datatype AllowEntry = AllowEntry(package: string, ghsa: string, reason: string)
  datatype Exemption = Exemption(subject: string, reason: string)
  datatype Policy = Policy(allowlist: seq<AllowEntry>, globalDbOnly: seq<Exemption>, noAdvisoryExpected: seq<Exemption>)

  /** A floor's text: the two shapes that are refused, or whitespace-separated comparators. */
  datatype Specifier = Disjunction | NotARange | Bounds(tokens: seq<Comparator>)

  datatype Override = Override(key: string, subject: string, specifier: Specifier)

  datatype AuditError =
    | BadPolicy | BadReleaseAge | BadWorkspace
    | BadSpecifier(key: string) | AdmitsNothing(key: string) | NoAdvisories(key: string)
    | UnreadableRange(key: string, ghsa: string) | SourceFailed(key: string, note: string)

  datatype Note =
    | NoRepo(package: string) | RepoUnreadable(package: string, why: string) | ExpiryUnknown(key: string, v: Version)

  datatype Checked = Checked(key: string, subject: string, specifier: Specifier, admitted: seq<Version>)

  datatype Finding = Finding(record: Checked, vulnerable: seq<Version>, advisories: seq<Advisory>,
                             safeFloor: Option<seq<Comparator>>)

  datatype Verdict =
    | Errored(error: AuditError)
    | Clean(record: Checked)
    | Stale(finding: Finding)
    | Quarantined(finding: Finding, safeVersion: Version, installableAt: int)

  datatype Audited = Audited(verdict: Verdict, notes: seq<Note>)

  // ---------------------------------------------------------------------------------------
  // Collecting advisories
  // ---------------------------------------------------------------------------------------

  /** `Map.set`: replace the value in place, or append a new key at the end. */
  function Put(entries: seq<Advisory>, a: Advisory): seq<Advisory> {
    if entries == [] then [a]
    else if Text.ToUpper(entries[0].ghsa) == Text.ToUpper(a.ghsa) then [a] + entries[1..]
    else [entries[0]] + Put(entries[1..], a)
  }

  predicate Has(entries: seq<Advisory>, key: string) {
    exists i :: 0 <= i < |entries| && Text.ToUpper(entries[i].ghsa) == key
  }

  function PutAll(entries: seq<Advisory>, global: seq<Advisory>): seq<Advisory>
    decreases |global|
  {
    if global == [] then entries else PutAll(Put(entries, global[0]), global[1..])
  }

  function PutNew(entries: seq<Advisory>, upstream: seq<Advisory>): seq<Advisory>
    decreases |upstream|
  {
    if upstream == [] then entries
    else
      PutNew(if Has(entries, Text.ToUpper(upstream[0].ghsa)) then entries else Put(entries, upstream[0]), upstream[1..])
  }

  datatype Collection = Collection(advisories: Result<seq<Advisory>, string>, notes: seq<Note>)

  predicate Declared(exemptions: seq<Exemption>, subject: string) {
    exists i :: 0 <= i < |exemptions| && exemptions[i].subject == subject
  }

  function Collected(source: Source, package: string, declared: bool): Collection {
    match source.globalAdvisories(package)
    case Err(e) => Collection(Err(e), [])
    case Ok(global) =>
      match source.upstreamRepo(package)
      case Err(e) => Collection(Err(e), [])
      case Ok(None) => Collection(Ok(PutAll([], global)), if declared then [] else [NoRepo(package)])
      case Ok(Some(slug)) =>
        match source.repoAdvisories(slug, package)
        case Failed(e) => Collection(Err(e), [])
        case Degraded(why) =>
          Collection(Ok(PutAll([], global)), if declared then [] else [RepoUnreadable(package, why)])
        case Fetched(upstream) => Collection(Ok(PutNew(PutAll([], global), upstream)), [])
  }

  method CollectAdvisories(source: Source, package: string, declared: bool) returns (c: Collection)
    ensures c == Collected(source, package, declared)
  {
    var notes: seq<Note> := [];
    var global := source.globalAdvisories(package);
    if global.Err? {
      return Collection(Err(global.error), []);
    }
    var slug := source.upstreamRepo(package);
    if slug.Err? {
      return Collection(Err(slug.error), []);
    }
    if slug.value.None? && !declared {
      notes := notes + [NoRepo(package)];
    }
    var upstream: seq<Advisory> := [];
    if slug.value.Some? {
      match source.repoAdvisories(slug.value.value, package) {
        case Failed(e) => return Collection(Err(e), []);
        case Degraded(why) =>
          if !declared {
            notes := notes + [RepoUnreadable(package, why)];
          }
        case Fetched(list) => upstream := list;
      }
    }
    var byId: seq<Advisory> := [];
    for i := 0 to |global.value|
      invariant PutAll(byId, global.value[i..]) == PutAll([], global.value)
    {
      assert global.value[i..][1..] == global.value[i + 1..];
      byId := Put(byId, global.value[i]);
    }
    for i := 0 to |upstream|
      invariant PutNew(byId, upstream[i..]) == PutNew(PutAll([], global.value), upstream)
    {
      assert upstream[i..][1..] == upstream[i + 1..];
      if !Has(byId, Text.ToUpper(upstream[i].ghsa)) {
        byId := Put(byId, upstream[i]);
      }
    }
    return Collection(Ok(byId), notes);
  }

  // ---------------------------------------------------------------------------------------
  // Matching
  // ---------------------------------------------------------------------------------------

  predicate MatchesAny(v: Version, ranges: seq<Groups>) {
    exists i :: 0 <= i < |ranges| && Reading.Accepts(ranges[i], v)
  }

  datatype Validated = Validated(advisory: Advisory, ranges: seq<Groups>)

  /** `toSemverRanges`: one unreadable range fails the whole advisory. */
  function ToSemverRanges(ranges: seq<RangeText>): Option<seq<Groups>> {
    if ranges == [] then Some([])
    else
      match (AdvisoryRanges.Normalized(ranges[0]), ToSemverRanges(ranges[1..]))
      case (Ok(groups), Some(rest)) => Some([groups] + rest)
      case _ => None
  }

  function ValidateAll(key: string, advisories: seq<Advisory>): Result<seq<Validated>, AuditError> {
    if advisories == [] then Ok([])
    else
      match ToSemverRanges(advisories[0].ranges)
      case None => Err(UnreadableRange(key, advisories[0].ghsa))
      case Some(ranges) =>
        match ValidateAll(key, advisories[1..])
        case Err(e) => Err(e)
        case Ok(rest) => Ok([Validated(advisories[0], ranges)] + rest)
  }

  predicate Allowlisted(policy: Policy, subject: string, ghsa: string) {
    exists i :: 0 <= i < |policy.allowlist|
                && policy.allowlist[i].package == subject
                && Text.ToUpper(policy.allowlist[i].ghsa) == Text.ToUpper(ghsa)
  }

  function Effective(policy: Policy, subject: string, all: seq<Validated>): seq<Validated> {
    Filter((x: Validated) => !Allowlisted(policy, subject, x.advisory.ghsa), all)
  }

  function Releases(published: seq<Published>): seq<Version> {
    if published == [] then []
    else (if published[0].Release? then [published[0].v] else []) + Releases(published[1..])
  }

  /** The releases the floor admits, in ascending order. */
  function Admitted(published: seq<Published>, tokens: seq<Comparator>): seq<Version> {
    Sort(Le, Filter(v => SatisfiesAll(v, tokens), Releases(published)))
  }

  function Hits(admitted: seq<Version>, ranges: seq<Groups>): seq<Version> {
    Filter(v => MatchesAny(v, ranges), admitted)
  }

  /** `Set.add` over a list, in insertion order. */
  function AddAll(found: seq<Version>, hits: seq<Version>): seq<Version>
    decreases |hits|
  {
    if hits == [] then found
    else AddAll(if hits[0] in found then found else found + [hits[0]], hits[1..])
  }

  datatype Tally = Tally(implicated: seq<Advisory>, vulnerable: seq<Version>)

  function TallyHits(t: Tally, admitted: seq<Version>, effective: seq<Validated>): Tally
    decreases |effective|
  {
    if effective == [] then t
    else
      var hits := Hits(admitted, effective[0].ranges);
      TallyHits(if hits == [] then t
                else Tally(t.implicated + [effective[0].advisory], AddAll(t.vulnerable, hits)),
                admitted, effective[1..])
  }

  method FindVulnerable(admitted: seq<Version>, effective: seq<Validated>) returns (t: Tally)
    ensures t == TallyHits(Tally([], []), admitted, effective)
  {
    var implicated: seq<Advisory> := [];
    var vulnerable: seq<Version> := [];
    for i := 0 to |effective|
      invariant TallyHits(Tally(implicated, vulnerable), admitted, effective[i..])
             == TallyHits(Tally([], []), admitted, effective)
    {
      assert effective[i..][1..] == effective[i + 1..];
      var hits := Hits(admitted, effective[i].ranges);
      if |hits| == 0 {
        continue;
      }
      implicated := implicated + [effective[i].advisory];
      ghost var before := vulnerable;
      for k := 0 to |hits|
        invariant AddAll(vulnerable, hits[k..]) == AddAll(before, hits)
      {
        assert hits[k..][1..] == hits[k + 1..];
        if hits[k] !in vulnerable {
          vulnerable := vulnerable + [hits[k]];
        }
      }
    }
    t := Tally(implicated, vulnerable);
  }

  // ---------------------------------------------------------------------------------------
  // The safe floor
  // ---------------------------------------------------------------------------------------

  /** `admitted.filter(v => gt(v, highest))`, whose first element is the safe version. */
  function CleanAbove(admitted: seq<Version>, highest: Version): seq<Version> {
    Filter(v => Lt(highest, v), admitted)
  }

  function FloorToken(tokens: seq<Comparator>): (i: nat)
    ensures i <= |tokens|
    ensures i < |tokens| ==> tokens[i].Ge? || tokens[i].Caret?
    ensures forall k :: 0 <= k < i ==> !tokens[k].Ge? && !tokens[k].Caret?
  {
    if tokens == [] then 0
    else if tokens[0].Ge? || tokens[0].Caret? then 0
    else 1 + FloorToken(tokens[1..])
  }

  function RenderSafeFloor(tokens: seq<Comparator>, safe: Version): seq<Comparator> {
    var i := FloorToken(tokens);
    if i == |tokens| then [Ge(Full(safe))]
    else tokens[i := if tokens[i].Caret? then Caret(Full(safe)) else Ge(Full(safe))]
  }

  // ---------------------------------------------------------------------------------------
  // Quarantine
  // ---------------------------------------------------------------------------------------

  /** When a version ages out of the quarantine; `None` for a missing, corrupt or future stamp. */
  function QuarantineExpiry(source: Source, package: string, v: Version, minutes: int, now: int)
    : Result<Option<int>, string>
  {
    match source.publishedAt(package, v)
    case Err(e) => Err(e)
    case Ok(At(ms)) => Ok(if ms > now then None else Some(ms + minutes * 60_000))
    case Ok(_) => Ok(None)
  }

  /** Every candidate is still waiting, and the first to mature; or not, with a possible note. */
  datatype Wait = Waiting(expiry: int, v: Version) | Installable | Unknown(v: Version)

  function JudgeFrom(source: Source, package: string, candidates: seq<Version>, minutes: int, now: int,
                     earliest: Option<(int, Version)>): Wait
    requires candidates == [] ==> earliest.Some?
    decreases |candidates|
  {
    if candidates == [] then Waiting(earliest.value.0, earliest.value.1)
    else
      match QuarantineExpiry(source, package, candidates[0], minutes, now)
      case Err(_) => Unknown(candidates[0])
      case Ok(None) => Installable
      case Ok(Some(expiry)) =>
        if expiry <= now then Installable
        else
          var next := if earliest.None? || expiry < earliest.value.0 then Some((expiry, candidates[0])) else earliest;
          JudgeFrom(source, package, candidates[1..], minutes, now, next)
  }

  method JudgeQuarantine(source: Source, package: string, candidates: seq<Version>, minutes: int, now: int)
    returns (w: Wait)
    requires candidates != []
    ensures w == JudgeFrom(source, package, candidates, minutes, now, None)
  {
    var earliestExpiry: Option<int> := None;
    var earliestVersion: Option<Version> := None;
    for i := 0 to |candidates|
      invariant earliestExpiry.Some? == earliestVersion.Some?
      invariant i == |candidates| ==> earliestExpiry.Some?
      invariant JudgeFrom(source, package, candidates[i..], minutes, now,
                          if earliestExpiry.Some? then Some((earliestExpiry.value, earliestVersion.value)) else None)
             == JudgeFrom(source, package, candidates, minutes, now, None)
    {
      assert candidates[i..][1..] == candidates[i + 1..];
      var expiry := QuarantineExpiry(source, package, candidates[i], minutes, now);
      if expiry.Err? {
        return Unknown(candidates[i]);
      }
      if expiry.value.None? || expiry.value.value <= now {
        return Installable;
      }
      if earliestExpiry.None? || expiry.value.value < earliestExpiry.value {
        earliestExpiry := expiry.value;
        earliestVersion := Some(candidates[i]);
      }
    }
    return Waiting(earliestExpiry.value, earliestVersion.value);
  }

  // ---------------------------------------------------------------------------------------
  // One override, and the whole report
  // ---------------------------------------------------------------------------------------

  function FindingOf(record: Checked, tokens: seq<Comparator>, tally: Tally): Finding
    requires tally.vulnerable != []
  {
    var vulnerable := Sort(Le, tally.vulnerable);
    var clean := CleanAbove(record.admitted, vulnerable[|vulnerable| - 1]);
    Finding(record, vulnerable, tally.implicated,
            if clean == [] then None else Some(RenderSafeFloor(tokens, clean[0])))
  }

  /** Stale or quarantined, once some admitted release is known to be vulnerable. */
  function JudgeFinding(source: Source, o: Override, finding: Finding, minutes: Option<int>, now: int): Audited
    requires finding.vulnerable != []
  {
    var clean := CleanAbove(finding.record.admitted, finding.vulnerable[|finding.vulnerable| - 1]);
    if clean == [] || minutes.None? then Audited(Stale(finding), [])
    else
      match JudgeFrom(source, o.subject, clean, minutes.value, now, None)
      case Waiting(expiry, v) => Audited(Quarantined(finding, v, expiry), [])
      case Installable => Audited(Stale(finding), [])
      case Unknown(v) => Audited(Stale(finding), [ExpiryUnknown(o.key, v)])
  }

  function JudgeAdvisories(policy: Policy, source: Source, o: Override, admitted: seq<Version>,
                           advisories: seq<Advisory>, minutes: Option<int>, now: int): Audited
    requires o.specifier.Bounds?
  {
    if advisories == [] && !Declared(policy.noAdvisoryExpected, o.key) then
      Audited(Errored(NoAdvisories(o.key)), [])
    else
      match ValidateAll(o.key, advisories)
      case Err(e) => Audited(Errored(e), [])
      case Ok(validated) =>
        var record := Checked(o.key, o.subject, o.specifier, admitted);
        var tally := TallyHits(Tally([], []), admitted, Effective(policy, o.subject, validated));
        if tally.vulnerable == [] then Audited(Clean(record), [])
        else JudgeFinding(source, o, FindingOf(record, o.specifier.tokens, tally), minutes, now)
  }

  predicate ReadableFloor(specifier: Specifier) {
    specifier.Bounds? && forall i :: 0 <= i < |specifier.tokens| ==> !specifier.tokens[i].Unreadable?
  }

  function AuditOne(policy: Policy, source: Source, o: Override, minutes: Option<int>, now: int): Audited {
    if !ReadableFloor(o.specifier) then Audited(Errored(BadSpecifier(o.key)), [])
    else
      match source.listVersions(o.subject)
      case Err(e) => Audited(Errored(SourceFailed(o.key, e)), [])
      case Ok(published) =>
        var admitted := Admitted(published, o.specifier.tokens);
        if admitted == [] then Audited(Errored(AdmitsNothing(o.key)), [])
        else
          var c := Collected(source, o.subject, Declared(policy.globalDbOnly, o.subject));
          match c.advisories
          case Err(e) => Audited(Errored(SourceFailed(o.key, e)), c.notes)
          case Ok(advisories) =>
            var r := JudgeAdvisories(policy, source, o, admitted, advisories, minutes, now);
            Audited(r.verdict, c.notes + r.notes)
  }

  datatype Report = Report(checked: seq<Checked>, stale: seq<Finding>, quarantined: seq<(Finding, Version, int)>,
                           errors: seq<AuditError>, degraded: seq<Note>, exitCode: int)

  /** `minimumReleaseAge` as read from the workspace file. */
  datatype ReleaseAge = NotPositive | Minutes(n: int)

  const MAX_QUARANTINE_MINUTES := 7 * 24 * 60

  function ParseMinimumReleaseAge(age: ReleaseAge): Result<Option<int>, AuditError> {
    match age
    case NotPositive => Ok(None)
    case Minutes(n) =>
      if n <= 0 then Ok(None) else if n > MAX_QUARANTINE_MINUTES then Err(BadReleaseAge) else Ok(Some(n))
  }

  /** The workspace file: its release age, and its `overrides:` block unless that is malformed. */
  datatype Workspace = Workspace(age: ReleaseAge, overrides: Option<seq<Override>>)

  predicate AlphaNumeric(s: string) {
    forall i :: 0 <= i < |s| ==> 'a' <= Text.LowerChar(s[i]) <= 'z' || '0' <= s[i] <= '9'
  }

  predicate IsGhsaId(s: string) {
    && |s| == 19 && Text.ToUpper(s[..4]) == "GHSA"
    && s[4] == '-' && s[9] == '-' && s[14] == '-'
    && AlphaNumeric(s[5..9]) && AlphaNumeric(s[10..14]) && AlphaNumeric(s[15..])
  }

  predicate PolicyValid(p: Policy) {
    && (forall i :: 0 <= i < |p.allowlist| ==>
          !Text.Blank(p.allowlist[i].package) && IsGhsaId(p.allowlist[i].ghsa) && !Text.Blank(p.allowlist[i].reason))
    && (forall i :: 0 <= i < |p.noAdvisoryExpected| ==>
          !Text.Blank(p.noAdvisoryExpected[i].subject) && !Text.Blank(p.noAdvisoryExpected[i].reason))
    && (forall i :: 0 <= i < |p.globalDbOnly| ==>
          !Text.Blank(p.globalDbOnly[i].subject) && !Text.Blank(p.globalDbOnly[i].reason))
  }

  function File(r: Report, a: Audited): Report {
    var r' := r.(degraded := r.degraded + a.notes);
    match a.verdict
    case Errored(e) => r'.(errors := r.errors + [e])
    case Clean(record) => r'.(checked := r.checked + [record])
    case Stale(f) => r'.(checked := r.checked + [f.record], stale := r.stale + [f])
    case Quarantined(f, v, at) => r'.(checked := r.checked + [f.record], quarantined := r.quarantined + [(f, v, at)])
  }

  function AuditEach(policy: Policy, source: Source, overrides: seq<Override>, minutes: Option<int>, now: int)
    : (r: seq<Audited>)
    ensures |r| == |overrides|
  {
    seq(|overrides|, i requires 0 <= i < |overrides| => AuditOne(policy, source, overrides[i], minutes, now))
  }

  function FileAll(r: Report, audits: seq<Audited>): Report
    decreases |audits|
  {
    if audits == [] then r else FileAll(File(r, audits[0]), audits[1..])
  }

  function Close(r: Report): Report {
    r.(exitCode := if r.errors != [] || r.stale != [] || r.degraded != [] then 1 else 0)
  }

  function Audit(policy: Policy, source: Source, ws: Workspace, now: int): Report {
    if !PolicyValid(policy) then Report([], [], [], [BadPolicy], [], 1)
    else if ws.overrides.None? then Report([], [], [], [BadWorkspace], [], 1)
    else
      var age := ParseMinimumReleaseAge(ws.age);
      var start := Report([], [], [], if age.Err? then [age.error] else [], [], 0);
      Close(FileAll(start, AuditEach(policy, source, ws.overrides.value, if age.Ok? then age.value else None, now)))
  }

  /** From the finding on: is the remedy something that could be installed today? */
  method JudgeRemedy(source: Source, o: Override, finding: Finding, minutes: Option<int>, now: int) returns (a: Audited)
    requires finding.vulnerable != []
    ensures a == JudgeFinding(source, o, finding, minutes, now)
  {
    var clean := CleanAbove(finding.record.admitted, finding.vulnerable[|finding.vulnerable| - 1]);
    if |clean| == 0 || minutes.None? {
      return Audited(Stale(finding), []);
    }
    var wait := JudgeQuarantine(source, o.subject, clean, minutes.value, now);
    match wait {
      case Waiting(expiry, v) => return Audited(Quarantined(finding, v, expiry), []);
      case Unknown(v) => return Audited(Stale(finding), [ExpiryUnknown(o.key, v)]);
      case Installable => return Audited(Stale(finding), []);
    }
  }

  /** From the collected advisories on. */
  method TestAdmitted(policy: Policy, source: Source, o: Override, admitted: seq<Version>,
                      advisories: seq<Advisory>, minutes: Option<int>, now: int) returns (a: Audited)
    requires o.specifier.Bounds?
    ensures a == JudgeAdvisories(policy, source, o, admitted, advisories, minutes, now)
  {
    if |advisories| == 0 && !Declared(policy.noAdvisoryExpected, o.key) {
      return Audited(Errored(NoAdvisories(o.key)), []);
    }
    var validated := ValidateAll(o.key, advisories);
    if validated.Err? {
      return Audited(Errored(validated.error), []);
    }
    var record := Checked(o.key, o.subject, o.specifier, admitted);
    var tally := FindVulnerable(admitted, Effective(policy, o.subject, validated.value));
    if |tally.vulnerable| == 0 {
      return Audited(Clean(record), []);
    }
    a := JudgeRemedy(source, o, FindingOf(record, o.specifier.tokens, tally), minutes, now);
  }

  /** The body of the loop's `try`: an early return is a `throw` or `continue` there. */
  method AuditOverride(policy: Policy, source: Source, o: Override, minutes: Option<int>, now: int) returns (a: Audited)
    ensures a == AuditOne(policy, source, o, minutes, now)
  {
    if !ReadableFloor(o.specifier) {
      return Audited(Errored(BadSpecifier(o.key)), []);
    }
    var published := source.listVersions(o.subject);
    if published.Err? {
      return Audited(Errored(SourceFailed(o.key, published.error)), []);
    }
    var admitted := Admitted(published.value, o.specifier.tokens);
    if |admitted| == 0 {
      return Audited(Errored(AdmitsNothing(o.key)), []);
    }
    var c := CollectAdvisories(source, o.subject, Declared(policy.globalDbOnly, o.subject));
    if c.advisories.Err? {
      return Audited(Errored(SourceFailed(o.key, c.advisories.error)), c.notes);
    }
    a := TestAdmitted(policy, source, o, admitted, c.advisories.value, minutes, now);
    a := a.(notes := c.notes + a.notes);
  }

  /** The loop over the overrides, filling the report's lists. */
  method AuditEntries(policy: Policy, source: Source, overrides: seq<Override>, ageErrors: seq<AuditError>,
                      minutes: Option<int>, now: int) returns (r: Report)
    ensures r == FileAll(Report([], [], [], ageErrors, [], 0), AuditEach(policy, source, overrides, minutes, now))
  {
    r := Report([], [], [], ageErrors, [], 0);
    ghost var start := r;
    ghost var all := AuditEach(policy, source, overrides, minutes, now);
    for i := 0 to |overrides|
      invariant FileAll(r, all[i..]) == FileAll(start, all)
    {
      assert all[i..][1..] == all[i + 1..];
      var audited := AuditOverride(policy, source, overrides[i], minutes, now);
      assert audited == all[i];
      r := r.(degraded := r.degraded + audited.notes);
      match audited.verdict {
        case Errored(e) => r := r.(errors := r.errors + [e]);
        case Clean(record) => r := r.(checked := r.checked + [record]);
        case Stale(f) => r := r.(checked := r.checked + [f.record], stale := r.stale + [f]);
        case Quarantined(f, v, at) =>
          r := r.(checked := r.checked + [f.record], quarantined := r.quarantined + [(f, v, at)]);
      }
    }
  }

  method AuditOverrideFloors(policy: Policy, source: Source, ws: Workspace, now: int) returns (report: Report)
    ensures report == Audit(policy, source, ws, now)
  {
    if !PolicyValid(policy) {
      return Report([], [], [], [BadPolicy], [], 1);
    }
    var errors: seq<AuditError> := [];
    var minutes: Option<int> := None;
    var age := ParseMinimumReleaseAge(ws.age);
    if age.Err? {
      errors := errors + [age.error];
    } else {
      minutes := age.value;
    }
    if ws.overrides.None? {
      return Report([], [], [], [BadWorkspace], [], 1);
    }
    assert errors == if age.Err? then [age.error] else [];
    report := AuditEntries(policy, source, ws.overrides.value, errors, minutes, now);
    report := Close(report);
  }
}
