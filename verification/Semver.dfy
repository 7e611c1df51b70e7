/**
 Release versions and the comparators of a range, read over releases only (the auditor drops
 prereleases before it tests anything).  A comparator's operand may be partial (`8`, `1.2`), as
 semver allows; `Floor` is the first release it covers and `Next` the first release after it.
 */
module Semver {
  import opened Common

  datatype Version = Version(major: nat, minor: nat, patch: nat)

  const ZERO := Version(0, 0, 0)

  predicate Lt(a: Version, b: Version) {
    a.major < b.major
    || (a.major == b.major && (a.minor < b.minor || (a.minor == b.minor && a.patch < b.patch)))
  }

  predicate Le(a: Version, b: Version) {
    !Lt(b, a)
  }

  function Succ(v: Version): Version {
    v.(patch := v.patch + 1)
  }

  function Later(a: Version, b: Version): Version {
    if Lt(a, b) then b else a
  }

  datatype Partial = Major(x: nat) | Minor(x: nat, y: nat) | Full(v: Version)

  function Floor(p: Partial): Version {
    match p
    case Major(x) => Version(x, 0, 0)
    case Minor(x, y) => Version(x, y, 0)
    case Full(v) => v
  }

  function Next(p: Partial): Version {
    match p
    case Major(x) => Version(x + 1, 0, 0)
    case Minor(x, y) => Version(x, y + 1, 0)
    case Full(v) => Succ(v)
  }

  /** One comparator.  `Unreadable` is text semver cannot parse; it accepts nothing. */
  datatype Comparator =
    | Ge(p: Partial)
    | Gt(p: Partial)
    | Less(p: Partial)
    | AtMost(p: Partial)
    | Exactly(p: Partial)
    | Hyphen(from: Partial, to: Partial)
    | Caret(p: Partial)
    | Tilde(p: Partial)
    | Unreadable

  /** The exclusive cap of `^p`: the leftmost non-zero component may not change. */
  function CaretCap(p: Partial): Version {
    match p
    case Major(x) => Version(x + 1, 0, 0)
    case Minor(x, y) => if x > 0 then Version(x + 1, 0, 0) else Version(0, y + 1, 0)
    case Full(v) =>
      if v.major > 0 then Version(v.major + 1, 0, 0)
      else if v.minor > 0 then Version(0, v.minor + 1, 0)
      else Succ(v)
  }

  function TildeCap(p: Partial): Version {
    match p
    case Major(x) => Version(x + 1, 0, 0)
    case Minor(x, y) => Version(x, y + 1, 0)
    case Full(v) => Version(v.major, v.minor + 1, 0)
  }

  predicate Satisfies(v: Version, c: Comparator) {
    match c
    case Ge(p) => Le(Floor(p), v)
    case Gt(p) => Le(Next(p), v)
    case Less(p) => Lt(v, Floor(p))
    case AtMost(p) => Lt(v, Next(p))
    case Exactly(p) => Le(Floor(p), v) && Lt(v, Next(p))
    case Hyphen(a, b) => Le(Floor(a), v) && Lt(v, Next(b))
    case Caret(p) => Le(Floor(p), v) && Lt(v, CaretCap(p))
    case Tilde(p) => Le(Floor(p), v) && Lt(v, TildeCap(p))
    case Unreadable => false
  }

  /** A comparator list is a conjunction. */
  predicate SatisfiesAll(v: Version, cs: seq<Comparator>) {
    forall i :: 0 <= i < |cs| ==> Satisfies(v, cs[i])
  }

  /** On a full version the operators are the plain comparisons of the release order. */
  lemma FullOperandMeaning(v: Version, x: Version)
    ensures Satisfies(v, Gt(Full(x))) <==> Lt(x, v)
    ensures Satisfies(v, AtMost(Full(x))) <==> Le(v, x)
    ensures Satisfies(v, Exactly(Full(x))) <==> v == x
  {}

  // ---------------------------------------------------------------------------------------
  // Satisfiability: semver's minVersion and what it decides
  // ---------------------------------------------------------------------------------------

  /** The least release the lower half of a comparator allows. */
  function LowOf(c: Comparator): Version {
    match c
    case Ge(p) => Floor(p)
    case Gt(p) => Next(p)
    case Less(_) => ZERO
    case AtMost(_) => ZERO
    case Exactly(p) => Floor(p)
    case Hyphen(a, _) => Floor(a)
    case Caret(p) => Floor(p)
    case Tilde(p) => Floor(p)
    case Unreadable => ZERO
  }

  function MaxLow(cs: seq<Comparator>): Version {
    if cs == [] then ZERO else Later(LowOf(cs[0]), MaxLow(cs[1..]))
  }

  /** `semver.minVersion`: try 0.0.0, then the greatest of the lower bounds. */
  function MinVersion(cs: seq<Comparator>): Option<Version> {
    if SatisfiesAll(ZERO, cs) then Some(ZERO)
    else if SatisfiesAll(MaxLow(cs), cs) then Some(MaxLow(cs))
    else None
  }

  lemma {:induction false} MaxLowBelow(v: Version, cs: seq<Comparator>)
    requires SatisfiesAll(v, cs)
    ensures Le(MaxLow(cs), v)
  {
    if cs != [] {
      assert Satisfies(v, cs[0]);
      assert forall i :: 0 <= i < |cs[1..]| ==> cs[1..][i] == cs[i + 1];
      MaxLowBelow(v, cs[1..]);
    }
  }

  lemma {:induction false} MaxLowAbove(cs: seq<Comparator>, i: nat)
    requires i < |cs|
    ensures Le(LowOf(cs[i]), MaxLow(cs))
  {
    if i > 0 {
      MaxLowAbove(cs[1..], i - 1);
    }
  }

  lemma BetweenLowAndMember(m: Version, v: Version, c: Comparator)
    requires Satisfies(v, c) && Le(LowOf(c), m) && Le(m, v)
    ensures Satisfies(m, c)
  {}

  /** minVersion finds a release exactly when one exists, and then it is the least. */
  lemma MinVersionDecides(cs: seq<Comparator>)
    ensures MinVersion(cs).Some? <==> exists v :: SatisfiesAll(v, cs)
    ensures MinVersion(cs).Some? ==>
              SatisfiesAll(MinVersion(cs).value, cs)
              && forall v :: SatisfiesAll(v, cs) ==> Le(MinVersion(cs).value, v)
  {
    forall v | SatisfiesAll(v, cs)
      ensures Le(MaxLow(cs), v) && SatisfiesAll(MaxLow(cs), cs)
    {
      MaxLowBelow(v, cs);
      forall i | 0 <= i < |cs| ensures Satisfies(MaxLow(cs), cs[i]) {
        MaxLowAbove(cs, i);
        BetweenLowAndMember(MaxLow(cs), v, cs[i]);
      }
    }
  }
}
