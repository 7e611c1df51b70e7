/**
 The meaning of a range as its author wrote it: a list of alternatives, each spelled in one of the
 recorded dialects.  The grouping loop recovers their union whatever order they come in, except for
 the gaps made explicit here.
 */
module AdvisoryAlternatives {
  import opened Common
  import opened Semver
  import opened AdvisoryRanges
  import opened AdvisoryRangeMeaning
  import opened AdvisoryReading

  datatype Alternative =
    | Below(strict: bool, p: Partial)
    | Between(implied: bool, lowStrict: bool, a: Partial, upStrict: bool, b: Partial)
    | Span(glued: bool, a: Partial, b: Partial)
    | CaretOf(p: Partial)
    | TildeOf(p: Partial)
    | Just(equals: bool, p: Partial)
    | AtLeast(strict: bool, p: Partial)

  function UpperCmp(strict: bool, p: Partial): Comparator {
    if strict then Less(p) else AtMost(p)
  }

  function LowerCmp(strict: bool, p: Partial): Comparator {
    if strict then Gt(p) else Ge(p)
  }

  /** The releases an alternative describes, independently of how it is read back. */
  predicate Denotes(v: Version, alt: Alternative) {
    match alt
    case Below(strict, p) => Satisfies(v, UpperCmp(strict, p))
    case Between(implied, ls, a, us, b) =>
      Satisfies(v, LowerCmp(ls && !implied, a)) && Satisfies(v, UpperCmp(us, b))
    case Span(_, a, b) => Satisfies(v, Hyphen(a, b))
    case CaretOf(p) => Satisfies(v, Caret(p))
    case TildeOf(p) => Satisfies(v, Tilde(p))
    case Just(_, p) => Satisfies(v, Exactly(p))
    case AtLeast(strict, p) => Satisfies(v, LowerCmp(strict, p))
  }

  ghost predicate NonEmpty(alt: Alternative) {
    exists v :: Denotes(v, alt)
  }

  // ---------------------------------------------------------------------------------------
  // Spelling
  // ---------------------------------------------------------------------------------------

  function UpperToken(strict: bool, p: Partial): Token {
    Operator(if strict then LT else LE, Readable(p))
  }

  function LowerToken(strict: bool, p: Partial): Token {
    Operator(if strict then GT else GE, Readable(p))
  }

  function TokensOf(alt: Alternative): seq<Token> {
    match alt
    case Below(strict, p) => [UpperToken(strict, p)]
    case Between(implied, ls, a, us, b) =>
      [if implied then Bare(Readable(a)) else LowerToken(ls, a), UpperToken(us, b)]
    case Span(glued, a, b) =>
      if glued && a.Full? && b.Full? then [Glued(a.v, b.v)] else [Bare(Readable(a)), Dash, Bare(Readable(b))]
    case CaretOf(p) => [Operator(CARET, Readable(p))]
    case TildeOf(p) => [Operator(TILDE, Readable(p))]
    case Just(equals, p) => [if equals then Operator(EQ, Readable(p)) else Bare(Readable(p))]
    case AtLeast(strict, p) => [LowerToken(strict, p)]
  }

  function Spelling(alts: seq<Alternative>): seq<Token> {
    if alts == [] then [] else TokensOf(alts[0]) + Spelling(alts[1..])
  }

  function AtomsOf(alt: Alternative): seq<Atom> {
    match alt
    case Below(strict, p) => [Atom(UpperBound, UpperCmp(strict, p))]
    case Between(implied, ls, a, us, b) =>
      [if implied then Atom(ExactVersion, Exactly(a)) else Atom(LowerBound, LowerCmp(ls, a)),
       Atom(UpperBound, UpperCmp(us, b))]
    case Span(_, a, b) => [Atom(Window, Hyphen(a, b))]
    case CaretOf(p) => [Atom(Window, Caret(p))]
    case TildeOf(p) => [Atom(Window, Tilde(p))]
    case Just(_, p) => [Atom(ExactVersion, Exactly(p))]
    case AtLeast(strict, p) => [Atom(LowerBound, LowerCmp(strict, p))]
  }

  function AtomList(alts: seq<Alternative>): seq<Atom> {
    if alts == [] then [] else AtomsOf(alts[0]) + AtomList(alts[1..])
  }

  lemma SpellingStart(alts: seq<Alternative>)
    requires alts != []
    ensures Spelling(alts) != [] && Spelling(alts)[0] != Dash
  {}

  lemma {:induction false} TokenizePair(low: Token, high: Token, rest: seq<Token>)
    requires high != Dash && (rest == [] || rest[0] != Dash)
    ensures Tokenized([low, high] + rest) == [AtomOf(low), AtomOf(high)] + Tokenized(rest)
  {
    var t := [low, high] + rest;
    assert t[1..] == [high] + rest;
    assert t[1..][1..] == rest;
  }

  lemma {:induction false} TokenizeFirst(alt: Alternative, rest: seq<Token>)
    requires rest == [] || rest[0] != Dash
    ensures Tokenized(TokensOf(alt) + rest) == AtomsOf(alt) + Tokenized(rest)
  {
    var t := TokensOf(alt) + rest;
    if alt.Between? {
      var low := if alt.implied then Bare(Readable(alt.a)) else LowerToken(alt.lowStrict, alt.a);
      TokenizePair(low, UpperToken(alt.upStrict, alt.b), rest);
    } else if |TokensOf(alt)| == 3 {
      assert t[3..] == rest;
    } else {
      assert t[1..] == rest;
    }
  }

  /** Tokenizing any spelling gives back the atoms of the alternatives, in order. */
  lemma {:induction false} TokenizeSpelling(alts: seq<Alternative>)
    ensures Tokenized(Spelling(alts)) == AtomList(alts)
  {
    if alts != [] {
      TokenizeSpelling(alts[1..]);
      if alts[1..] != [] {
        SpellingStart(alts[1..]);
      }
      TokenizeFirst(alts[0], Spelling(alts[1..]));
    }
  }

  // ---------------------------------------------------------------------------------------
  // Bounds
  // ---------------------------------------------------------------------------------------

  function Upper(strict: bool, p: Partial): Atom {
    Atom(UpperBound, UpperCmp(strict, p))
  }

  function Lower(strict: bool, p: Partial): Atom {
    Atom(LowerBound, LowerCmp(strict, p))
  }

  /** The first release an upper bound excludes. */
  function CapOf(upper: Comparator): Version {
    match upper
    case Less(p) => Floor(p)
    case AtMost(p) => Next(p)
    case _ => ZERO
  }

  predicate IsUpper(a: Atom) {
    a.kind.UpperBound? && (a.cmp.Less? || a.cmp.AtMost?)
  }

  predicate IsLower(a: Atom) {
    a.kind.LowerBound? && (a.cmp.Ge? || a.cmp.Gt?)
  }

  /** A lower and an upper bound have a release in common. */
  predicate Meets(low: Comparator, up: Comparator) {
    Lt(LowOf(low), CapOf(up))
  }

  lemma BoundMeaning(r: Atom, v: Version)
    ensures IsUpper(r) ==> (Satisfies(v, r.cmp) <==> Lt(v, CapOf(r.cmp)))
    ensures IsLower(r) ==> (Satisfies(v, r.cmp) <==> Le(LowOf(r.cmp), v))
  {}

  lemma PairedExactly(low: Atom, up: Atom)
    requires IsLower(low) && IsUpper(up)
    ensures IsSatisfiable([low.cmp, up.cmp]) <==> Meets(low.cmp, up.cmp)
    ensures IsSatisfiable([up.cmp, low.cmp]) <==> Meets(low.cmp, up.cmp)
  {
    EitherOrder(low.cmp, up.cmp);
    EitherOrder(up.cmp, low.cmp);
    var m := LowOf(low.cmp);
    BoundMeaning(low, m);
    BoundMeaning(up, m);
    forall v | Satisfies(v, low.cmp) && Satisfies(v, up.cmp) ensures Meets(low.cmp, up.cmp) {
      BoundMeaning(low, v);
      BoundMeaning(up, v);
    }
  }

  lemma EitherOrder(a: Comparator, b: Comparator)
    ensures IsSatisfiable([a, b]) <==> exists v :: Satisfies(v, a) && Satisfies(v, b)
  {
    var cs := [a, b];
    MinVersionDecides(cs);
    forall v ensures SatisfiesAll(v, cs) <==> Satisfies(v, a) && Satisfies(v, b) {
      assert SatisfiesAll(v, cs) ==> Satisfies(v, cs[0]) && Satisfies(v, cs[1]);
    }
  }

  // ---------------------------------------------------------------------------------------
  // Reading alternatives
  // ---------------------------------------------------------------------------------------

  /** An alternative's atoms once an implied lower bound has been made explicit. */
  function Bounds(alt: Alternative): seq<Atom> {
    match alt
    case Between(implied, ls, a, us, b) => [Lower(ls && !implied, a), Upper(us, b)]
    case _ => AtomsOf(alt)
  }

  function BoundList(alts: seq<Alternative>): seq<Atom> {
    if alts == [] then [] else Bounds(alts[0]) + BoundList(alts[1..])
  }

  /** No version stands directly before a bare upper bound, which would make it a lower bound. */
  predicate Separated(alts: seq<Alternative>) {
    forall i :: 0 < i < |alts| ==> !(alts[i - 1].Just? && alts[i].Below?)
  }

  lemma SeparatedTail(alts: seq<Alternative>)
    requires alts != [] && Separated(alts)
    ensures Separated(alts[1..])
  {
    assert forall i :: 0 <= i < |alts[1..]| ==> alts[1..][i] == alts[i + 1];
  }

  lemma RewrittenPair(a: Atom, b: Atom, rest: seq<Atom>)
    requires b.kind.UpperBound?
    ensures Rewritten([a, b] + rest) == [Rewrite(a, true), b] + Rewritten(rest)
  {
    var atoms := [a, b] + rest;
    assert atoms[1..] == [b] + rest;
    assert atoms[1..][1..] == rest;
  }

  lemma RewrittenAlternative(alt: Alternative, rest: seq<Atom>)
    requires alt.Just? && rest != [] ==> !rest[0].kind.UpperBound?
    ensures Rewritten(AtomsOf(alt) + rest) == Bounds(alt) + Rewritten(rest)
  {
    if alt.Between? {
      RewrittenPair(AtomsOf(alt)[0], AtomsOf(alt)[1], rest);
    } else {
      assert (AtomsOf(alt) + rest)[1..] == rest;
    }
  }

  lemma {:induction false} BoundsAreRewritten(alts: seq<Alternative>)
    requires Separated(alts)
    ensures Rewritten(Tokenized(Spelling(alts))) == BoundList(alts)
  {
    TokenizeSpelling(alts);
    if alts != [] {
      var rest := alts[1..];
      SeparatedTail(alts);
      BoundsAreRewritten(rest);
      TokenizeSpelling(rest);
      assert rest != [] ==> alts[1] == rest[0];
      RewrittenAlternative(alts[0], AtomList(rest));
    }
  }

  /** The bound left waiting after an alternative. */
  function OpenAfter(open: Option<Atom>, alt: Alternative): Option<Atom> {
    match alt
    case Between(implied, ls, a, us, b) => NextOpen(NextOpen(open, Bounds(alt)[0]), Bounds(alt)[1])
    case _ => NextOpen(open, Bounds(alt)[0])
  }

  predicate SettledBy(v: Version, open: Option<Atom>, alt: Alternative) {
    match alt
    case Between(implied, ls, a, us, b) =>
      Settled(v, open, Bounds(alt)[0]) || Settled(v, NextOpen(open, Bounds(alt)[0]), Bounds(alt)[1])
    case _ => Settled(v, open, Bounds(alt)[0])
  }

  lemma ReadsCons(v: Version, open: Option<Atom>, alts: seq<Alternative>)
    requires alts != []
    ensures Reads(v, open, BoundList(alts))
       <==> SettledBy(v, open, alts[0]) || Reads(v, OpenAfter(open, alts[0]), BoundList(alts[1..]))
  {
    var rest := BoundList(alts[1..]);
    var all := Bounds(alts[0]) + rest;
    if alts[0].Between? {
      assert all[1..] == [Bounds(alts[0])[1]] + rest;
      assert all[1..][1..] == rest;
    } else {
      assert all[1..] == rest;
    }
  }

  predicate BoundOpen(open: Option<Atom>) {
    open.Some? ==> IsLower(open.value) || IsUpper(open.value)
  }

  // ---------------------------------------------------------------------------------------
  // What a reading loses
  // ---------------------------------------------------------------------------------------

  /**
   The alternative's first bound is taken for the partner of the bound before it, and what that
   bound named is not all named again.
   */
  predicate Harmful(open: Option<Atom>, alt: Alternative) {
    Pairs(open, Bounds(alt)[0])
    && if alt.Between? then Lt(CapOf(Bounds(alt)[1].cmp), LowOf(Bounds(alt)[0].cmp)) else alt.Below? || alt.AtLeast?
  }

  /** Outside the window two bounds are read as. */
  predicate Outside(v: Version, low: Comparator, up: Comparator) {
    Lt(v, LowOf(low)) || Le(CapOf(up), v)
  }

  /** The releases such a step loses. */
  predicate Gap(v: Version, open: Option<Atom>, alt: Alternative) {
    Harmful(open, alt)
    && if alt.Between? then Le(CapOf(Bounds(alt)[1].cmp), v) && Lt(v, LowOf(Bounds(alt)[0].cmp))
       else if alt.Below? then Outside(v, open.value.cmp, Bounds(alt)[0].cmp)
       else Outside(v, Bounds(alt)[0].cmp, open.value.cmp)
  }

  predicate Harmless(open: Option<Atom>, alts: seq<Alternative>)
    decreases |alts|
  {
    alts == [] || (!Harmful(open, alts[0]) && Harmless(OpenAfter(open, alts[0]), alts[1..]))
  }

  predicate InGap(v: Version, open: Option<Atom>, alts: seq<Alternative>)
    decreases |alts|
  {
    alts != [] && (Gap(v, open, alts[0]) || InGap(v, OpenAfter(open, alts[0]), alts[1..]))
  }

  /** A harmful step does lose something. */
  lemma GapsAreNotEmpty(open: Option<Atom>, alt: Alternative)
    requires BoundOpen(open) && Harmful(open, alt)
    ensures exists v :: Gap(v, open, alt)
  {
    var v := if alt.Between? then CapOf(Bounds(alt)[1].cmp)
             else if alt.Below? then CapOf(Bounds(alt)[0].cmp)
             else CapOf(open.value.cmp);
    assert Gap(v, open, alt);
  }

  lemma BoundStep(v: Version, open: Option<Atom>, low: Atom, up: Atom, r: Atom)
    requires IsLower(low) && IsUpper(up) && ((open == Some(low) && r == up) || (open == Some(up) && r == low))
    ensures Pairs(open, r) <==> Meets(low.cmp, up.cmp)
    ensures Pairs(open, r) ==> (!Settled(v, open, r) <==> Outside(v, low.cmp, up.cmp))
    ensures Pairs(open, r) ==> OpenAccepts(v, open) || Satisfies(v, r.cmp)
  {
    PairedExactly(low, up);
    BoundMeaning(low, v);
    BoundMeaning(up, v);
  }

  /** One lone bound. */
  lemma LoneStep(v: Version, open: Option<Atom>, alt: Alternative)
    requires BoundOpen(open) && (alt.Below? || alt.AtLeast?)
    ensures BoundOpen(OpenAfter(open, alt))
    ensures OpenAccepts(v, open) || Denotes(v, alt)
       <==> SettledBy(v, open, alt) || OpenAccepts(v, OpenAfter(open, alt)) || Gap(v, open, alt)
    ensures !Harmful(open, alt) ==> !Gap(v, open, alt)
  {
    var r := Bounds(alt)[0];
    if Pairs(open, r) {
      if alt.Below? {
        BoundStep(v, open, open.value, r, r);
      } else {
        BoundStep(v, open, r, open.value, r);
      }
    }
  }

  /** A pair, whose lower bound may be taken for the partner of an open upper bound. */
  lemma PairStep(v: Version, open: Option<Atom>, alt: Alternative)
    requires BoundOpen(open) && alt.Between?
    ensures BoundOpen(OpenAfter(open, alt))
    ensures OpenAccepts(v, open) || Denotes(v, alt)
        ==> SettledBy(v, open, alt) || OpenAccepts(v, OpenAfter(open, alt)) || Gap(v, open, alt)
    ensures Gap(v, open, alt) ==> OpenAccepts(v, open)
    ensures Meets(Bounds(alt)[0].cmp, Bounds(alt)[1].cmp) ==>
              (SettledBy(v, open, alt) || OpenAccepts(v, OpenAfter(open, alt)) ==>
               OpenAccepts(v, open) || Denotes(v, alt))
  {
    var l, h := Bounds(alt)[0], Bounds(alt)[1];
    BoundMeaning(l, v);
    BoundMeaning(h, v);
    if Pairs(open, l) {
      BoundStep(v, open, l, open.value, l);
      BoundMeaning(open.value, v);
    } else {
      BoundStep(v, Some(l), l, h, h);
    }
  }

  lemma WindowStep(v: Version, open: Option<Atom>, alt: Alternative)
    requires !alt.Below? && !alt.AtLeast? && !alt.Between?
    ensures OpenAfter(open, alt).None? && !Harmful(open, alt)
    ensures OpenAccepts(v, open) || Denotes(v, alt) <==> SettledBy(v, open, alt)
  {}

  predicate NamedBy(v: Version, open: Option<Atom>, alts: seq<Alternative>) {
    OpenAccepts(v, open) || DenotesAny(v, alts)
  }

  predicate DenotesAny(v: Version, alts: seq<Alternative>) {
    exists i :: 0 <= i < |alts| && Denotes(v, alts[i])
  }

  lemma DenotesAnyCons(v: Version, alts: seq<Alternative>)
    requires alts != []
    ensures DenotesAny(v, alts) <==> Denotes(v, alts[0]) || DenotesAny(v, alts[1..])
  {
    assert forall i :: 0 <= i < |alts[1..]| ==> alts[1..][i] == alts[i + 1];
    assert forall i :: 1 <= i < |alts| ==> alts[i] == alts[1..][i - 1];
  }

  lemma AlternativeStep(v: Version, open: Option<Atom>, alt: Alternative)
    requires BoundOpen(open)
    ensures BoundOpen(OpenAfter(open, alt))
    ensures OpenAccepts(v, open) || Denotes(v, alt)
        ==> SettledBy(v, open, alt) || OpenAccepts(v, OpenAfter(open, alt)) || Gap(v, open, alt)
    ensures Gap(v, open, alt) ==> OpenAccepts(v, open) || Denotes(v, alt)
    ensures NonEmpty(alt) && (SettledBy(v, open, alt) || OpenAccepts(v, OpenAfter(open, alt))) ==>
              OpenAccepts(v, open) || Denotes(v, alt)
  {
    match alt
    case Between(_, _, _, _, _) =>
      PairStep(v, open, alt);
      if w :| Denotes(w, alt) {
        BoundMeaning(Bounds(alt)[0], w);
        BoundMeaning(Bounds(alt)[1], w);
      }
    case Below(_, _) => LoneStep(v, open, alt);
    case AtLeast(_, _) => LoneStep(v, open, alt);
    case _ => WindowStep(v, open, alt);
  }

  ghost predicate AllNonEmpty(alts: seq<Alternative>) {
    forall i :: 0 <= i < |alts| ==> NonEmpty(alts[i])
  }

  lemma NonEmptyTail(alts: seq<Alternative>)
    requires alts != [] && AllNonEmpty(alts)
    ensures NonEmpty(alts[0]) && AllNonEmpty(alts[1..])
  {
    assert forall i :: 0 <= i < |alts[1..]| ==> alts[1..][i] == alts[i + 1];
  }

  /** What the alternatives name is read or lies in a gap; without a harmful step there is no gap. */
  lemma {:induction false} ReadOrLost(v: Version, open: Option<Atom>, alts: seq<Alternative>)
    requires BoundOpen(open)
    ensures NamedBy(v, open, alts) ==> Reads(v, open, BoundList(alts)) || InGap(v, open, alts)
    ensures Harmless(open, alts) ==> !InGap(v, open, alts)
    decreases |alts|
  {
    if alts != [] {
      AlternativeStep(v, open, alts[0]);
      ReadOrLost(v, OpenAfter(open, alts[0]), alts[1..]);
      ReadsCons(v, open, alts);
      DenotesAnyCons(v, alts);
    }
  }

  /** A harmful step anywhere loses something. */
  lemma {:induction false} HarmLeavesGap(open: Option<Atom>, alts: seq<Alternative>) returns (v: Version)
    requires BoundOpen(open) && !Harmless(open, alts)
    ensures InGap(v, open, alts)
    decreases |alts|
  {
    if Harmful(open, alts[0]) {
      GapsAreNotEmpty(open, alts[0]);
      v :| Gap(v, open, alts[0]);
    } else {
      AlternativeStep(ZERO, open, alts[0]);
      v := HarmLeavesGap(OpenAfter(open, alts[0]), alts[1..]);
    }
  }

  /** Non-empty alternatives are never read as more than they name, and name every release in a gap. */
  lemma {:induction false} NothingAdded(v: Version, open: Option<Atom>, alts: seq<Alternative>)
    requires BoundOpen(open) && AllNonEmpty(alts)
    ensures Reads(v, open, BoundList(alts)) || InGap(v, open, alts) ==> NamedBy(v, open, alts)
    decreases |alts|
  {
    if alts != [] {
      AlternativeStep(v, open, alts[0]);
      NonEmptyTail(alts);
      NothingAdded(v, OpenAfter(open, alts[0]), alts[1..]);
      ReadsCons(v, open, alts);
      DenotesAnyCons(v, alts);
    }
  }

  // ---------------------------------------------------------------------------------------
  // Whole texts
  // ---------------------------------------------------------------------------------------

  /** Every bound and window of the alternative matches some release by itself. */
  predicate Live(alt: Alternative) {
    AllAtomsAlive(Bounds(alt))
  }

  lemma NonEmptyIsLive(alt: Alternative)
    requires NonEmpty(alt)
    ensures Live(alt)
  {
    var w :| Denotes(w, alt);
    forall i | 0 <= i < |Bounds(alt)| ensures AtomAlive(Bounds(alt)[i]) {
      var c := Bounds(alt)[i].cmp;
      assert Satisfies(w, c);
      assert SatisfiesAll(w, [c]);
      MinVersionDecides([c]);
    }
  }

  function Spellings(texts: seq<seq<Alternative>>): seq<seq<Token>> {
    if texts == [] then [] else [Spelling(texts[0])] + Spellings(texts[1..])
  }

  lemma {:induction false} SpellingsAt(texts: seq<seq<Alternative>>)
    ensures |Spellings(texts)| == |texts|
    ensures forall k :: 0 <= k < |texts| ==> Spellings(texts)[k] == Spelling(texts[k])
  {
    if texts != [] {
      SpellingsAt(texts[1..]);
      assert forall k :: 1 <= k < |texts| ==>
             Spellings(texts)[k] == Spellings(texts[1..])[k - 1] && texts[k] == texts[1..][k - 1];
    }
  }

  predicate DenotesText(v: Version, texts: seq<seq<Alternative>>) {
    exists k :: 0 <= k < |texts| && DenotesAny(v, texts[k])
  }

  predicate InGapText(v: Version, texts: seq<seq<Alternative>>) {
    exists k :: 0 <= k < |texts| && InGap(v, None, texts[k])
  }

  predicate HarmlessText(texts: seq<seq<Alternative>>) {
    forall k :: 0 <= k < |texts| ==> Harmless(None, texts[k])
  }

  /** Alternatives across hard boundaries, none of them dead, no version directly before a bare upper bound. */
  predicate Written(texts: seq<seq<Alternative>>) {
    && texts != []
    && forall k :: 0 <= k < |texts| ==>
         texts[k] != [] && Separated(texts[k]) && forall i :: 0 <= i < |texts[k]| ==> Live(texts[k][i])
  }

  ghost predicate NonEmptyText(texts: seq<seq<Alternative>>) {
    forall k :: 0 <= k < |texts| ==> AllNonEmpty(texts[k])
  }

  lemma {:induction false} BoundsAlive(alts: seq<Alternative>)
    requires forall i :: 0 <= i < |alts| ==> Live(alts[i])
    ensures AllAtomsAlive(BoundList(alts)) && (alts != [] ==> BoundList(alts) != [])
  {
    if alts != [] {
      assert forall i :: 0 <= i < |alts[1..]| ==> alts[1..][i] == alts[i + 1];
      BoundsAlive(alts[1..]);
      AliveAppend(Bounds(alts[0]), BoundList(alts[1..]));
    }
  }

  lemma AliveAppend(a: seq<Atom>, b: seq<Atom>)
    requires AllAtomsAlive(a) && AllAtomsAlive(b)
    ensures AllAtomsAlive(a + b)
  {}

  lemma {:induction false} TextAlive(texts: seq<seq<Alternative>>)
    requires texts == [] || Written(texts)
    ensures AllAtomsAlive(AtomsOfText(Spellings(texts))) && EveryGroupHasAtoms(Spellings(texts))
  {
    if texts != [] {
      var rest := texts[1..];
      assert forall k :: 0 <= k < |rest| ==> rest[k] == texts[k + 1];
      TextAlive(rest);
      BoundsAreRewritten(texts[0]);
      BoundsAlive(texts[0]);
      RewrittenLength(Tokenized(Spelling(texts[0])));
      assert Spellings(texts)[1..] == Spellings(rest);
      AliveAppend(BoundList(texts[0]), AtomsOfText(Spellings(rest)));
      EveryGroupCons(Spellings(texts));
    }
  }

  /** Such a text is accepted, and its groups accept what its alternatives are read as. */
  lemma WrittenIsRead(texts: seq<seq<Alternative>>, v: Version)
    requires Written(texts)
    ensures Normalized(Spellings(texts)).Ok?
    ensures Accepts(Normalized(Spellings(texts)).value, v)
       <==> exists k :: 0 <= k < |texts| && Reads(v, None, BoundList(texts[k]))
  {
    TextAlive(texts);
    RejectedExactly(Spellings(texts));
    TextReadsExactly(Spellings(texts), v);
    SpellingsAt(texts);
    forall k | 0 <= k < |texts| ensures Rewritten(Tokenized(Spellings(texts)[k])) == BoundList(texts[k]) {
      BoundsAreRewritten(texts[k]);
    }
  }

  /**
   Whatever the order, overlap or emptiness of the alternatives: a release that is named is
   accepted, or lies in a gap.
   */
  lemma LossOnlyInGaps(texts: seq<seq<Alternative>>, v: Version)
    requires Written(texts)
    ensures Normalized(Spellings(texts)).Ok?
    ensures DenotesText(v, texts) ==> Accepts(Normalized(Spellings(texts)).value, v) || InGapText(v, texts)
    ensures HarmlessText(texts) ==> !InGapText(v, texts)
  {
    WrittenIsRead(texts, v);
    forall k | 0 <= k < |texts|
      ensures DenotesAny(v, texts[k]) ==> Reads(v, None, BoundList(texts[k])) || InGap(v, None, texts[k])
      ensures Harmless(None, texts[k]) ==> !InGap(v, None, texts[k])
    {
      ReadOrLost(v, None, texts[k]);
    }
  }

  /** A text leaves gaps exactly if a harmful step stands in it. */
  lemma HarmlessTextExactly(texts: seq<seq<Alternative>>)
    ensures HarmlessText(texts) <==> forall v :: !InGapText(v, texts)
  {
    forall k, v | 0 <= k < |texts| && Harmless(None, texts[k]) ensures !InGap(v, None, texts[k]) {
      ReadOrLost(v, None, texts[k]);
    }
    if k :| 0 <= k < |texts| && !Harmless(None, texts[k]) {
      var v := HarmLeavesGap(None, texts[k]);
      assert InGapText(v, texts);
    }
  }

  /** Non-empty alternatives are read as exactly what they name outside the gaps, and as no more. */
  lemma ReadWithinNamed(texts: seq<seq<Alternative>>, v: Version)
    requires Written(texts) && NonEmptyText(texts)
    ensures Normalized(Spellings(texts)).Ok?
    ensures Accepts(Normalized(Spellings(texts)).value, v) || InGapText(v, texts) ==> DenotesText(v, texts)
  {
    WrittenIsRead(texts, v);
    forall k | 0 <= k < |texts|
      ensures Reads(v, None, BoundList(texts[k])) || InGap(v, None, texts[k]) ==> DenotesAny(v, texts[k])
    {
      NothingAdded(v, None, texts[k]);
    }
  }

  /** The union of non-empty alternatives is recovered if and only if each gap is read by the rest of the text. */
  lemma RecoveredOverGaps(texts: seq<seq<Alternative>>)
    requires Written(texts) && NonEmptyText(texts)
    ensures Normalized(Spellings(texts)).Ok?
    ensures (forall v :: Accepts(Normalized(Spellings(texts)).value, v) <==> DenotesText(v, texts))
       <==> (forall v :: InGapText(v, texts) ==> Accepts(Normalized(Spellings(texts)).value, v))
  {
    LossOnlyInGaps(texts, ZERO);
    forall v
      ensures DenotesText(v, texts) ==> Accepts(Normalized(Spellings(texts)).value, v) || InGapText(v, texts)
      ensures Accepts(Normalized(Spellings(texts)).value, v) || InGapText(v, texts) ==> DenotesText(v, texts)
    {
      LossOnlyInGaps(texts, v);
      ReadWithinNamed(texts, v);
    }
  }

  ghost predicate WellWritten(texts: seq<seq<Alternative>>) {
    && texts != [] && NonEmptyText(texts) && HarmlessText(texts)
    && forall k :: 0 <= k < |texts| ==> texts[k] != [] && Separated(texts[k])
  }

  lemma WellWrittenIsWritten(texts: seq<seq<Alternative>>)
    requires WellWritten(texts)
    ensures Written(texts)
  {
    forall k, i | 0 <= k < |texts| && 0 <= i < |texts[k]| ensures Live(texts[k][i]) {
      NonEmptyIsLive(texts[k][i]);
    }
  }

  /**
   Main result.  Any text of non-empty alternatives, in any order, spelling and overlap, across any
   number of hard `;` boundaries and without a harmful step, is accepted, and the groups read back
   accept exactly the union of the alternatives.
   */
  lemma UnionRecovered(texts: seq<seq<Alternative>>)
    requires WellWritten(texts)
    ensures Normalized(Spellings(texts)).Ok?
    ensures forall v :: Accepts(Normalized(Spellings(texts)).value, v) <==> DenotesText(v, texts)
  {
    WellWrittenIsWritten(texts);
    RecoveredOverGaps(texts);
    forall v ensures !InGapText(v, texts) {
      LossOnlyInGaps(texts, v);
    }
  }

  predicate HasCap(alt: Alternative) {
    !alt.Just? && !alt.AtLeast?
  }

  /** Between capped alternatives only an upper bound is ever left waiting, and a non-empty pair may take it. */
  lemma {:induction false} CappedIsHarmless(open: Option<Atom>, alts: seq<Alternative>)
    requires open.Some? ==> IsUpper(open.value)
    requires AllNonEmpty(alts) && forall i :: 0 <= i < |alts| ==> HasCap(alts[i])
    ensures Harmless(open, alts)
    decreases |alts|
  {
    if alts != [] {
      var alt := alts[0];
      NonEmptyTail(alts);
      if alt.Between? {
        var w :| Denotes(w, alt);
        BoundMeaning(Bounds(alt)[0], w);
        BoundMeaning(Bounds(alt)[1], w);
        PairedExactly(Bounds(alt)[0], Bounds(alt)[1]);
      }
      assert forall i :: 0 <= i < |alts[1..]| ==> alts[1..][i] == alts[i + 1];
      CappedIsHarmless(OpenAfter(open, alt), alts[1..]);
    }
  }

  /** For the recorded dialects (bare uppers, pairs, windows) no condition on adjacency is left. */
  lemma CappedAlternatives(alts: seq<Alternative>)
    requires alts != [] && forall i :: 0 <= i < |alts| ==> HasCap(alts[i]) && NonEmpty(alts[i])
    ensures Normalized([Spelling(alts)]).Ok?
    ensures forall v :: Accepts(Normalized([Spelling(alts)]).value, v) <==> DenotesAny(v, alts)
  {
    CappedIsHarmless(None, alts);
    UnionRecovered([alts]);
    OneText(alts);
  }

  lemma OneText(alts: seq<Alternative>)
    ensures Spellings([alts]) == [Spelling(alts)]
    ensures forall v :: DenotesText(v, [alts]) <==> DenotesAny(v, alts)
    ensures forall v :: InGapText(v, [alts]) <==> InGap(v, None, alts)
  {
    assert Spellings([alts][1..]) == [];
    assert [alts][0] == alts;
  }

  // ---------------------------------------------------------------------------------------
  // The shapes that lose releases
  // ---------------------------------------------------------------------------------------

  /** One line of alternatives. */
  lemma LineIsRead(alts: seq<Alternative>, v: Version)
    requires alts != [] && Separated(alts) && forall i :: 0 <= i < |alts| ==> Live(alts[i])
    ensures Normalized([Spelling(alts)]).Ok?
    ensures Accepts(Normalized([Spelling(alts)]).value, v) <==> Reads(v, None, BoundList(alts))
  {
    WrittenIsRead([alts], v);
    OneText(alts);
    assert [alts][0] == alts;
  }

  lemma TwoBoundLists(first: Alternative, second: Alternative, v: Version)
    ensures BoundList([first, second]) == Bounds(first) + Bounds(second)
    ensures DenotesAny(v, [first, second]) <==> Denotes(v, first) || Denotes(v, second)
  {
    var alts := [first, second];
    assert alts[1..] == [second] && [second][1..] == [];
    assert BoundList([second]) == Bounds(second) + [];
    DenotesAnyCons(v, alts);
    DenotesAnyCons(v, [second]);
  }

  /** Two opposite bounds are read as a window if they meet. */
  lemma TwoBoundsRead(a: Atom, b: Atom, v: Version)
    requires IsBound(a) && IsBound(b)
    ensures Reads(v, None, [a, b])
       <==> if Pairs(Some(a), b) then Satisfies(v, a.cmp) && Satisfies(v, b.cmp)
            else Satisfies(v, a.cmp) || Satisfies(v, b.cmp)
  {
    assert [a, b][1..] == [b] && [b][1..] == [];
    assert Reads(v, None, [a, b]) == Reads(v, Some(a), [b]);
  }

  lemma ThreeBoundsRead(u: Atom, l: Atom, h: Atom, v: Version)
    requires IsUpper(u) && IsLower(l) && IsUpper(h)
    ensures Reads(v, None, [u, l, h]) <==> CrossedRead(v, CapOf(u.cmp), LowOf(l.cmp), CapOf(h.cmp))
  {
    PairedExactly(l, u);
    PairedExactly(l, h);
    BoundMeaning(u, v);
    BoundMeaning(l, v);
    BoundMeaning(h, v);
    assert [u, l, h][1..] == [l, h] && [l, h][1..] == [h] && [h][1..] == [];
    assert Reads(v, None, [u, l, h]) == Reads(v, Some(u), [l, h]);
    assert Reads(v, None, [h]) == Satisfies(v, h.cmp);
    assert Reads(v, Some(l), [h]) == (Settled(v, Some(l), h) || OpenAccepts(v, NextOpen(Some(l), h)));
    assert Reads(v, Some(u), [l, h]) == (Settled(v, Some(u), l) || Reads(v, NextOpen(Some(u), l), [h]));
  }

  lemma FourBoundsRead(u: Atom, l: Atom, h: Atom, m: Atom, v: Version)
    requires IsUpper(u) && IsLower(l) && IsUpper(h) && IsLower(m) && Meets(l.cmp, u.cmp) && Meets(m.cmp, h.cmp)
    ensures Reads(v, None, [u, l, h, m])
       <==> (Satisfies(v, u.cmp) && Satisfies(v, l.cmp)) || (Satisfies(v, h.cmp) && Satisfies(v, m.cmp))
  {
    PairedExactly(l, u);
    PairedExactly(m, h);
    assert [u, l, h, m][1..] == [l, h, m] && [l, h, m][1..] == [h, m] && [h, m][1..] == [m] && [m][1..] == [];
    assert Reads(v, None, [u, l, h, m]) == Reads(v, Some(u), [l, h, m]);
    assert Reads(v, None, [h, m]) == Reads(v, Some(h), [m]);
  }

  lemma LiveBounds(alt: Alternative)
    ensures alt.Below? ==> (Live(alt) <==> Lt(ZERO, CapOf(Bounds(alt)[0].cmp)))
    ensures alt.AtLeast? ==> Live(alt)
    ensures alt.Between? ==> (Live(alt) <==> Lt(ZERO, CapOf(Bounds(alt)[1].cmp)))
  {
    if alt.Below? || alt.AtLeast? {
      DeadComparators(Bounds(alt)[0]);
      assert Live(alt) <==> AtomAlive(Bounds(alt)[0]);
    } else if alt.Between? {
      DeadComparators(Bounds(alt)[0]);
      DeadComparators(Bounds(alt)[1]);
      assert Live(alt) <==> AtomAlive(Bounds(alt)[0]) && AtomAlive(Bounds(alt)[1]);
    }
  }

  lemma LoneEnds(cap: Version, low: Version)
    ensures (forall v :: (if Lt(low, cap) then Le(low, v) && Lt(v, cap) else Le(low, v) || Lt(v, cap))
                         <==> Lt(v, cap) || Le(low, v))
       <==> Le(cap, low)
  {
    if Lt(low, cap) {
      assert !(Le(low, cap) && Lt(cap, cap)) && Le(low, cap);
    }
  }

  predicate LonePair(first: Alternative, second: Alternative) {
    (first.Below? && second.AtLeast?) || (first.AtLeast? && second.Below?)
  }

  lemma LonePairReads(first: Alternative, second: Alternative, v: Version)
    requires LonePair(first, second) && Live(first) && Live(second)
    ensures var r, alts := Normalized([Spelling([first, second])]), [first, second];
            var a, b := Bounds(first)[0], Bounds(second)[0];
            var low, cap := LowOf(if first.Below? then b.cmp else a.cmp), CapOf(if first.Below? then a.cmp else b.cmp);
            && r.Ok?
            && (Accepts(r.value, v) <==> if Lt(low, cap) then Le(low, v) && Lt(v, cap) else Le(low, v) || Lt(v, cap))
            && (DenotesAny(v, alts) <==> Lt(v, cap) || Le(low, v))
  {
    var a, b := Bounds(first)[0], Bounds(second)[0];
    LineIsRead([first, second], v);
    TwoBoundLists(first, second, v);
    TwoBoundsRead(a, b, v);
    assert Bounds(first) + Bounds(second) == [a, b];
    if first.Below? {
      PairedExactly(b, a);
    } else {
      PairedExactly(a, b);
    }
    BoundMeaning(a, v);
    BoundMeaning(b, v);
  }

  /**
   A bare upper bound and a lone lower bound side by side (`<5 >=3`), in either order: the union is
   recovered if and only if they have no release in common.
   */
  lemma LoneBoundsExactly(s: bool, p: Partial, ls: bool, a: Partial, upperFirst: bool)
    requires Satisfies(ZERO, UpperCmp(s, p))
    ensures var alts := if upperFirst then [Below(s, p), AtLeast(ls, a)] else [AtLeast(ls, a), Below(s, p)];
            && Normalized([Spelling(alts)]).Ok?
            && ((forall v :: Accepts(Normalized([Spelling(alts)]).value, v) <==> DenotesAny(v, alts))
                <==> Le(CapOf(UpperCmp(s, p)), LowOf(LowerCmp(ls, a))))
  {
    var first := if upperFirst then Below(s, p) else AtLeast(ls, a);
    var second := if upperFirst then AtLeast(ls, a) else Below(s, p);
    LiveBounds(first);
    LiveBounds(second);
    LonePairReads(first, second, ZERO);
    var cap, low := CapOf(UpperCmp(s, p)), LowOf(LowerCmp(ls, a));
    LoneEnds(cap, low);
    forall v
      ensures Accepts(Normalized([Spelling([first, second])]).value, v)
         <==> if Lt(low, cap) then Le(low, v) && Lt(v, cap) else Le(low, v) || Lt(v, cap)
      ensures DenotesAny(v, [first, second]) <==> Lt(v, cap) || Le(low, v)
    {
      LonePairReads(first, second, v);
    }
  }

  /** What `<u >=l <h` names and what it is read as, by the ends of its bounds. */
  predicate CrossedNamed(v: Version, capU: Version, low: Version, cap: Version) {
    Lt(v, capU) || (Le(low, v) && Lt(v, cap))
  }

  predicate CrossedRead(v: Version, capU: Version, low: Version, cap: Version) {
    if Lt(low, capU) then (Lt(v, capU) && Le(low, v)) || Lt(v, cap)
    else if Lt(low, cap) then Lt(v, capU) || (Le(low, v) && Lt(v, cap))
    else Lt(v, capU) || Le(low, v) || Lt(v, cap)
  }

  lemma CrossedEnds(capU: Version, low: Version, cap: Version)
    ensures (forall v :: CrossedRead(v, capU, low, cap) <==> CrossedNamed(v, capU, low, cap))
       <==> if Lt(low, capU) then Le(low, cap) else Lt(low, cap)
  {
    var recovered := if Lt(low, capU) then Le(low, cap) else Lt(low, cap);
    if !recovered {
      var lost := if Lt(low, capU) then cap else low;
      assert CrossedRead(lost, capU, low, cap) != CrossedNamed(lost, capU, low, cap);
    }
  }

  lemma CrossedPairReads(s: bool, p: Partial, second: Alternative, v: Version)
    requires second.Between? && Live(Below(s, p)) && Live(second)
    ensures var alts := [Below(s, p), second];
            var capU, low, cap := CapOf(UpperCmp(s, p)), LowOf(Bounds(second)[0].cmp), CapOf(Bounds(second)[1].cmp);
            && Normalized([Spelling(alts)]).Ok?
            && (Accepts(Normalized([Spelling(alts)]).value, v) <==> CrossedRead(v, capU, low, cap))
            && (DenotesAny(v, alts) <==> CrossedNamed(v, capU, low, cap))
  {
    var u, l, h := Upper(s, p), Bounds(second)[0], Bounds(second)[1];
    LineIsRead([Below(s, p), second], v);
    TwoBoundLists(Below(s, p), second, v);
    assert Bounds(Below(s, p)) + Bounds(second) == [u, l, h];
    ThreeBoundsRead(u, l, h, v);
    BoundMeaning(u, v);
    BoundMeaning(l, v);
    BoundMeaning(h, v);
  }

  /**
   A bare upper bound before a pair, explicit or implied.  If the pair's lower bound falls below the
   first cap (`<5 >=3 <2`) the union is recovered if and only if the pair leaves no gap between its
   cap and its lower bound; otherwise if and only if the pair is not empty.
   */
  lemma CrossedPairExactly(s: bool, p: Partial, implied: bool, ls: bool, a: Partial, us: bool, b: Partial)
    requires Satisfies(ZERO, UpperCmp(s, p)) && Satisfies(ZERO, UpperCmp(us, b))
    ensures var alts := [Below(s, p), Between(implied, ls, a, us, b)];
            var low, cap := LowOf(LowerCmp(ls && !implied, a)), CapOf(UpperCmp(us, b));
            && Normalized([Spelling(alts)]).Ok?
            && ((forall v :: Accepts(Normalized([Spelling(alts)]).value, v) <==> DenotesAny(v, alts))
                <==> if Lt(low, CapOf(UpperCmp(s, p))) then Le(low, cap) else Lt(low, cap))
  {
    var pair := Between(implied, ls, a, us, b);
    LiveBounds(Below(s, p));
    LiveBounds(pair);
    CrossedPairReads(s, p, pair, ZERO);
    var capU, low, cap := CapOf(UpperCmp(s, p)), LowOf(LowerCmp(ls && !implied, a)), CapOf(UpperCmp(us, b));
    CrossedEnds(capU, low, cap);
    forall v
      ensures Accepts(Normalized([Spelling([Below(s, p), pair])]).value, v) <==> CrossedRead(v, capU, low, cap)
      ensures DenotesAny(v, [Below(s, p), pair]) <==> CrossedNamed(v, capU, low, cap)
    {
      CrossedPairReads(s, p, pair, v);
    }
  }

  /**
   A version directly before a bare upper bound is read as a lower bound: the spelling, or the atoms
   where `=` is written, are those of a pair, so no reader could honour both meanings.
   */
  lemma SameTextAsPair(equals: bool, a: Partial, us: bool, b: Partial)
    ensures Spelling([Just(false, a), Below(us, b)]) == Spelling([Between(true, false, a, us, b)])
    ensures Tokenized(Spelling([Just(equals, a), Below(us, b)]))
            == Tokenized(Spelling([Between(true, false, a, us, b)]))
  {
    assert [Just(false, a), Below(us, b)][1..] == [Below(us, b)];
    assert [Just(equals, a), Below(us, b)][1..] == [Below(us, b)];
    assert [Below(us, b)][1..] == [];
    assert [Between(true, false, a, us, b)][1..] == [];
    TokenizeSpelling([Just(equals, a), Below(us, b)]);
    TokenizeSpelling([Between(true, false, a, us, b)]);
  }

  lemma VersionEnds(low: Version, next: Version, cap: Version)
    requires Lt(low, next) && Lt(ZERO, cap)
    ensures (forall v :: (if Lt(low, cap) then Le(low, v) && Lt(v, cap) else Le(low, v) || Lt(v, cap))
                         <==> (Le(low, v) && Lt(v, next)) || Lt(v, cap))
       <==> low == ZERO && Le(next, cap)
  {
    if low != ZERO && Lt(low, cap) {
      assert !Le(low, ZERO) && Lt(ZERO, cap);
    } else if Lt(cap, next) {
      assert !Lt(cap, cap);
      if !Lt(low, cap) {
        assert Le(low, next) && !Lt(next, next) && !Lt(next, cap);
      }
    }
  }

  lemma VersionReads(equals: bool, p: Partial, us: bool, b: Partial, v: Version)
    requires Satisfies(ZERO, UpperCmp(us, b))
    ensures var alts, low, cap := [Just(equals, p), Below(us, b)], Floor(p), CapOf(UpperCmp(us, b));
            && Normalized([Spelling(alts)]).Ok?
            && (Accepts(Normalized([Spelling(alts)]).value, v)
                <==> if Lt(low, cap) then Le(low, v) && Lt(v, cap) else Le(low, v) || Lt(v, cap))
            && (DenotesAny(v, alts) <==> (Le(low, v) && Lt(v, Next(p))) || Lt(v, cap))
  {
    var pair := Between(true, false, p, us, b);
    SameTextAsPair(equals, p, us, b);
    LiveBounds(pair);
    LonePairIsRead(pair, v);
    SameAtomsSameGroups(Spelling([Just(equals, p), Below(us, b)]), Spelling([pair]));
    TwoBoundLists(Just(equals, p), Below(us, b), v);
    BoundMeaning(Upper(us, b), v);
  }

  lemma LonePairIsRead(pair: Alternative, v: Version)
    requires pair.Between? && Live(pair)
    ensures var low, cap := LowOf(Bounds(pair)[0].cmp), CapOf(Bounds(pair)[1].cmp);
            && Normalized([Spelling([pair])]).Ok?
            && (Accepts(Normalized([Spelling([pair])]).value, v)
                <==> if Lt(low, cap) then Le(low, v) && Lt(v, cap) else Le(low, v) || Lt(v, cap))
  {
    var l, h := Bounds(pair)[0], Bounds(pair)[1];
    LineIsRead([pair], v);
    assert BoundList([pair]) == [l, h];
    TwoBoundsRead(l, h, v);
    PairedExactly(l, h);
    BoundMeaning(l, v);
    BoundMeaning(h, v);
  }

  lemma SameAtomsSameGroups(a: seq<Token>, b: seq<Token>)
    requires Tokenized(a) == Tokenized(b)
    ensures Normalized([a]) == Normalized([b])
  {
    assert [a][1..] == [] && [b][1..] == [];
    if Tokenized(a) != [] {
      assert GroupAll([], [a]) == GroupAll(GroupAtoms([], Tokenized(a)), []);
      assert GroupAll([], [b]) == GroupAll(GroupAtoms([], Tokenized(b)), []);
    }
  }

  /**
   A version directly before a bare upper bound (`1.2.0 <3`), meant as two alternatives: the union is
   recovered if and only if the version covers 0.0.0 and lies below the cap.
   */
  lemma VersionBeforeCapExactly(equals: bool, p: Partial, us: bool, b: Partial)
    requires Satisfies(ZERO, UpperCmp(us, b))
    ensures var alts := [Just(equals, p), Below(us, b)];
            && Normalized([Spelling(alts)]).Ok?
            && ((forall v :: Accepts(Normalized([Spelling(alts)]).value, v) <==> DenotesAny(v, alts))
                <==> Floor(p) == ZERO && Le(Next(p), CapOf(UpperCmp(us, b))))
  {
    var alts, low, cap := [Just(equals, p), Below(us, b)], Floor(p), CapOf(UpperCmp(us, b));
    VersionReads(equals, p, us, b, ZERO);
    VersionEnds(low, Next(p), cap);
    forall v
      ensures Accepts(Normalized([Spelling(alts)]).value, v)
         <==> if Lt(low, cap) then Le(low, v) && Lt(v, cap) else Le(low, v) || Lt(v, cap)
      ensures DenotesAny(v, alts) <==> (Le(low, v) && Lt(v, Next(p))) || Lt(v, cap)
    {
      VersionReads(equals, p, us, b, v);
    }
  }

  /** `<u >=l <h >=m`, each bound meeting the one before: what is read is `u` with `l`, and `h` with `m`. */
  lemma SwallowedThenLone(u: Alternative, pair: Alternative, last: Alternative, v: Version)
    requires u.Below? && pair.Between? && last.AtLeast? && Live(u) && Live(pair) && Live(last)
    requires Meets(Bounds(pair)[0].cmp, Bounds(u)[0].cmp) && Meets(Bounds(last)[0].cmp, Bounds(pair)[1].cmp)
    ensures Normalized([Spelling([u, pair, last])]).Ok?
    ensures Accepts(Normalized([Spelling([u, pair, last])]).value, v)
       <==> (Satisfies(v, Bounds(u)[0].cmp) && Satisfies(v, Bounds(pair)[0].cmp))
            || (Satisfies(v, Bounds(pair)[1].cmp) && Satisfies(v, Bounds(last)[0].cmp))
  {
    var alts := [u, pair, last];
    LineIsRead(alts, v);
    assert alts[1..] == [pair, last];
    TwoBoundLists(pair, last, v);
    assert Bounds(u) + (Bounds(pair) + Bounds(last))
           == [Bounds(u)[0], Bounds(pair)[0], Bounds(pair)[1], Bounds(last)[0]];
    FourBoundsRead(Bounds(u)[0], Bounds(pair)[0], Bounds(pair)[1], Bounds(last)[0], v);
  }

  function MajorOnly(n: nat): Partial {
    Full(Version(n, 0, 0))
  }

  /**
   `<5 >=3 <8 >=7`: three non-empty alternatives, none crossed, and still 1.0.0, which the first one
   names, is lost, because the pair's cap is left waiting for the last bound.
   */
  lemma LongerTextLoses()
    ensures var alts := [Below(true, MajorOnly(5)), Between(false, false, MajorOnly(3), true, MajorOnly(8)),
                         AtLeast(false, MajorOnly(7))];
            && Normalized([Spelling(alts)]).Ok?
            && DenotesAny(Version(1, 0, 0), alts)
            && !Accepts(Normalized([Spelling(alts)]).value, Version(1, 0, 0))
  {
    var u, pair, last := Below(true, MajorOnly(5)), Between(false, false, MajorOnly(3), true, MajorOnly(8)),
                         AtLeast(false, MajorOnly(7));
    LiveBounds(u);
    LiveBounds(pair);
    LiveBounds(last);
    SwallowedThenLone(u, pair, last, Version(1, 0, 0));
    assert Denotes(Version(1, 0, 0), [u, pair, last][0]);
  }
}
