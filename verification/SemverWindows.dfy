/** What every comparator means, component by component, for full and for partial operands. */
module SemverWindows {
  import opened Semver

  /** The releases an operand stands for: a missing component may be anything. */
  predicate StandsFor(p: Partial, v: Version) {
    match p
    case Major(x) => v.major == x
    case Minor(x, y) => v.major == x && v.minor == y
    case Full(w) => v == w
  }

  /** The first component in which two releases differ decides. */
  predicate Earlier(v: Version, w: Version) {
    if v.major != w.major then v.major < w.major
    else if v.minor != w.minor then v.minor < w.minor
    else v.patch < w.patch
  }

  /** Before every release the operand stands for, or after every one of them. */
  ghost predicate BeforeAll(v: Version, p: Partial) {
    forall w :: StandsFor(p, w) ==> Earlier(v, w)
  }

  ghost predicate AfterAll(v: Version, p: Partial) {
    forall w :: StandsFor(p, w) ==> Earlier(w, v)
  }

  lemma EarlierIsLt(v: Version, w: Version)
    ensures Earlier(v, w) <==> Lt(v, w)
    ensures Lt(v, w) || v == w || Lt(w, v)
  {}

  lemma FloorIsFirst(p: Partial)
    ensures StandsFor(p, Floor(p)) && forall w :: StandsFor(p, w) ==> Le(Floor(p), w)
  {}

  lemma NextIsAfter(p: Partial, v: Version)
    ensures StandsFor(p, v) <==> Le(Floor(p), v) && Lt(v, Next(p))
    ensures Le(Next(p), v) <==> AfterAll(v, p)
    ensures Lt(v, Floor(p)) <==> BeforeAll(v, p)
  {
    FloorIsFirst(p);
    assert StandsFor(p, Floor(p)) && !Earlier(v, v);
    if Lt(v, Floor(p)) {
      assert !Earlier(Floor(p), v);
    }
  }

  /** `>=`, `>`, `<`, `<=`, `=` and hyphen ranges, over the releases their operands stand for. */
  lemma BoundsMean(v: Version, p: Partial, q: Partial)
    ensures Satisfies(v, Less(p)) <==> BeforeAll(v, p)
    ensures Satisfies(v, Gt(p)) <==> AfterAll(v, p)
    ensures Satisfies(v, Ge(p)) <==> AfterAll(v, p) || StandsFor(p, v)
    ensures Satisfies(v, AtMost(p)) <==> BeforeAll(v, p) || StandsFor(p, v)
    ensures Satisfies(v, Exactly(p)) <==> StandsFor(p, v)
    ensures Satisfies(v, Hyphen(p, q)) <==> !BeforeAll(v, p) && !AfterAll(v, q)
    ensures !Satisfies(v, Unreadable)
  {
    NextIsAfter(p, v);
    NextIsAfter(q, v);
    LeLt(Floor(p), Next(p), v);
  }

  lemma LeLt(a: Version, b: Version, v: Version)
    ensures Le(a, v) <==> !Lt(v, a)
    ensures Lt(a, b) && Le(b, v) ==> Le(a, v)
  {}

  /** No earlier than the operand, as far as the operand goes. */
  predicate NotBefore(v: Version, p: Partial) {
    match p
    case Major(x) => v.major >= x
    case Minor(x, y) => v.major > x || (v.major == x && v.minor >= y)
    case Full(w) => v == w || Earlier(w, v)
  }

  /** `^`: not before the operand, and the same up to its first component that is not zero. */
  lemma CaretMeans(v: Version, p: Partial)
    ensures Satisfies(v, Caret(p)) <==>
              && NotBefore(v, p)
              && match p
                 case Major(x) => v.major == x
                 case Minor(x, y) => v.major == x && (x == 0 ==> v.minor == y)
                 case Full(w) =>
                   && v.major == w.major && (w.major == 0 ==> v.minor == w.minor)
                   && (w.major == 0 && w.minor == 0 ==> v.patch == w.patch)
  {}

  /** `~`: not before the operand, and the same major and minor as far as it gives them. */
  lemma TildeMeans(v: Version, p: Partial)
    ensures Satisfies(v, Tilde(p)) <==>
              && NotBefore(v, p)
              && match p
                 case Major(x) => v.major == x
                 case Minor(x, y) => v.major == x && v.minor == y
                 case Full(w) => v.major == w.major && v.minor == w.minor
  {}
}
