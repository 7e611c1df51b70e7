/**
 Which texts are read as their union, and which lose a release they name, decided at the ends of their
 own bounds: between two neighbouring ends nothing changes.
 */
module AdvisoryEnds {
  import opened Common
  import opened Semver
  import opened AdvisoryRanges
  import opened AdvisoryReading
  import opened AdvisoryAlternatives

  // ---------------------------------------------------------------------------------------
  // Ends
  // ---------------------------------------------------------------------------------------

  /** The first release past the upper half of a comparator, if it has one. */
  function TopOf(c: Comparator): Version {
    match c
    case Exactly(p) => Next(p)
    case Hyphen(_, b) => Next(b)
    case Caret(p) => CaretCap(p)
    case Tilde(p) => TildeCap(p)
    case _ => CapOf(c)
  }

  function EndsOf(atoms: seq<Atom>): seq<Version> {
    if atoms == [] then [] else [LowOf(atoms[0].cmp), TopOf(atoms[0].cmp)] + EndsOf(atoms[1..])
  }

  function EndsOfTexts(texts: seq<seq<Alternative>>): seq<Version> {
    if texts == [] then [] else EndsOf(BoundList(texts[0])) + EndsOfTexts(texts[1..])
  }

  /** The two ends of every comparator written, and the first release of all. */
  function Ends(texts: seq<seq<Alternative>>): seq<Version> {
    [ZERO] + EndsOfTexts(texts)
  }

  /** No end separates the two releases. */
  predicate Same(u: Version, v: Version, ends: seq<Version>) {
    forall e :: e in ends ==> (Le(e, u) <==> Le(e, v))
  }

  /** The greatest end at or below a release. */
  function {:induction false} EndBelow(v: Version, ends: seq<Version>): (r: Version)
    ensures Le(r, v) && (r == ZERO || r in ends) && Same(r, v, ends)
  {
    if ends == [] then ZERO
    else
      var below := EndBelow(v, ends[1..]);
      if Le(ends[0], v) then Later(below, ends[0]) else below
  }

  predicate HasEnds(ends: seq<Version>, c: Comparator) {
    LowOf(c) in ends && TopOf(c) in ends
  }

  predicate Covers(ends: seq<Version>, atoms: seq<Atom>) {
    forall i :: 0 <= i < |atoms| ==> HasEnds(ends, atoms[i].cmp)
  }

  predicate CoversOpen(ends: seq<Version>, open: Option<Atom>) {
    open.Some? ==> HasEnds(ends, open.value.cmp)
  }

  lemma {:induction false} EndsCover(atoms: seq<Atom>)
    ensures Covers(EndsOf(atoms), atoms)
  {
    if atoms != [] {
      EndsCover(atoms[1..]);
      assert forall i :: 1 <= i < |atoms| ==> atoms[i] == atoms[1..][i - 1];
    }
  }

  lemma {:induction false} TextEndsCover(texts: seq<seq<Alternative>>, k: nat)
    requires k < |texts|
    ensures Covers(EndsOfTexts(texts), BoundList(texts[k]))
  {
    EndsCover(BoundList(texts[0]));
    if k > 0 {
      TextEndsCover(texts[1..], k - 1);
    }
  }

  // ---------------------------------------------------------------------------------------
  // What a reading adds
  // ---------------------------------------------------------------------------------------

  /**
   An empty pair is read as two alternatives when its lower bound is not taken for the partner of the
   bound before it.
   */
  predicate Excess(v: Version, open: Option<Atom>, alt: Alternative) {
    && alt.Between? && !Pairs(open, Bounds(alt)[0]) && !Meets(Bounds(alt)[0].cmp, Bounds(alt)[1].cmp)
    && (Satisfies(v, Bounds(alt)[0].cmp) || Satisfies(v, Bounds(alt)[1].cmp))
  }

  predicate InExcess(v: Version, open: Option<Atom>, alts: seq<Alternative>)
    decreases |alts|
  {
    alts != [] && (Excess(v, open, alts[0]) || InExcess(v, OpenAfter(open, alts[0]), alts[1..]))
  }

  predicate InExcessText(v: Version, texts: seq<seq<Alternative>>) {
    exists k :: 0 <= k < |texts| && InExcess(v, None, texts[k])
  }

  lemma PairExcess(v: Version, open: Option<Atom>, alt: Alternative)
    requires BoundOpen(open) && alt.Between? && !Meets(Bounds(alt)[0].cmp, Bounds(alt)[1].cmp)
    ensures SettledBy(v, open, alt) || OpenAccepts(v, OpenAfter(open, alt)) ==>
              OpenAccepts(v, open) || Excess(v, open, alt)
    ensures Excess(v, open, alt) ==> SettledBy(v, open, alt) || OpenAccepts(v, OpenAfter(open, alt))
  {
    var l, h := Bounds(alt)[0], Bounds(alt)[1];
    PairedExactly(l, h);
    BoundMeaning(l, v);
    BoundMeaning(h, v);
    if Pairs(open, l) {
      PairedExactly(l, open.value);
      BoundMeaning(open.value, v);
    }
  }

  lemma ExcessStep(v: Version, open: Option<Atom>, alt: Alternative)
    requires BoundOpen(open)
    ensures BoundOpen(OpenAfter(open, alt))
    ensures SettledBy(v, open, alt) || OpenAccepts(v, OpenAfter(open, alt)) ==>
              OpenAccepts(v, open) || Denotes(v, alt) || Excess(v, open, alt)
    ensures Excess(v, open, alt) ==> SettledBy(v, open, alt) || OpenAccepts(v, OpenAfter(open, alt))
  {
    AlternativeStep(v, open, alt);
    if alt.Between? {
      PairStep(v, open, alt);
      if !Meets(Bounds(alt)[0].cmp, Bounds(alt)[1].cmp) {
        PairExcess(v, open, alt);
      }
    } else {
      match alt
      case Below(_, _) => LoneStep(v, open, alt);
      case AtLeast(_, _) => LoneStep(v, open, alt);
      case _ => WindowStep(v, open, alt);
    }
  }

  /** Whatever is read is named, or was added by an empty pair. */
  lemma {:induction false} ReadOrAdded(v: Version, open: Option<Atom>, alts: seq<Alternative>)
    requires BoundOpen(open)
    ensures Reads(v, open, BoundList(alts)) ==> NamedBy(v, open, alts) || InExcess(v, open, alts)
    decreases |alts|
  {
    if alts != [] {
      ExcessStep(v, open, alts[0]);
      ReadOrAdded(v, OpenAfter(open, alts[0]), alts[1..]);
      ReadsCons(v, open, alts);
      DenotesAnyCons(v, alts);
    }
  }

  // ---------------------------------------------------------------------------------------
  // Releases no end separates are treated alike
  // ---------------------------------------------------------------------------------------

  lemma SameSatisfies(u: Version, v: Version, ends: seq<Version>, c: Comparator)
    requires Same(u, v, ends) && HasEnds(ends, c)
    ensures Satisfies(u, c) <==> Satisfies(v, c)
  {}

  lemma SameSettled(u: Version, v: Version, ends: seq<Version>, open: Option<Atom>, r: Atom)
    requires Same(u, v, ends) && CoversOpen(ends, open) && HasEnds(ends, r.cmp)
    ensures Settled(u, open, r) <==> Settled(v, open, r)
    ensures OpenAccepts(u, open) <==> OpenAccepts(v, open)
    ensures CoversOpen(ends, NextOpen(open, r))
  {
    SameSatisfies(u, v, ends, r.cmp);
    if open.Some? {
      SameSatisfies(u, v, ends, open.value.cmp);
    }
  }

  lemma {:induction false} SameReads(u: Version, v: Version, ends: seq<Version>, open: Option<Atom>, atoms: seq<Atom>)
    requires Same(u, v, ends) && CoversOpen(ends, open) && Covers(ends, atoms)
    ensures Reads(u, open, atoms) <==> Reads(v, open, atoms)
    decreases |atoms|
  {
    if atoms == [] {
      if open.Some? {
        SameSatisfies(u, v, ends, open.value.cmp);
      }
    } else {
      SameSettled(u, v, ends, open, atoms[0]);
      SameReads(u, v, ends, NextOpen(open, atoms[0]), atoms[1..]);
    }
  }

  lemma SameDenotes(u: Version, v: Version, ends: seq<Version>, alt: Alternative)
    requires Same(u, v, ends) && Covers(ends, Bounds(alt))
    ensures Denotes(u, alt) <==> Denotes(v, alt)
  {
    SameSatisfies(u, v, ends, Bounds(alt)[0].cmp);
    if alt.Between? {
      SameSatisfies(u, v, ends, Bounds(alt)[1].cmp);
    }
  }

  lemma SameGap(u: Version, v: Version, ends: seq<Version>, open: Option<Atom>, alt: Alternative)
    requires Same(u, v, ends) && BoundOpen(open) && CoversOpen(ends, open) && Covers(ends, Bounds(alt))
    ensures Gap(u, open, alt) <==> Gap(v, open, alt)
    ensures Excess(u, open, alt) <==> Excess(v, open, alt)
    ensures CoversOpen(ends, OpenAfter(open, alt))
  {
    SameSatisfies(u, v, ends, Bounds(alt)[0].cmp);
    if alt.Between? {
      SameSatisfies(u, v, ends, Bounds(alt)[1].cmp);
    }
  }

  lemma CoversSplit(ends: seq<Version>, a: seq<Atom>, b: seq<Atom>)
    requires Covers(ends, a + b)
    ensures Covers(ends, a) && Covers(ends, b)
  {
    assert forall i :: 0 <= i < |a| ==> (a + b)[i] == a[i];
    assert forall i :: 0 <= i < |b| ==> (a + b)[|a| + i] == b[i];
  }

  lemma {:induction false} SameLine(u: Version, v: Version, ends: seq<Version>, open: Option<Atom>,
                                    alts: seq<Alternative>)
    requires Same(u, v, ends) && BoundOpen(open) && CoversOpen(ends, open) && Covers(ends, BoundList(alts))
    ensures DenotesAny(u, alts) <==> DenotesAny(v, alts)
    ensures InGap(u, open, alts) <==> InGap(v, open, alts)
    ensures InExcess(u, open, alts) <==> InExcess(v, open, alts)
    decreases |alts|
  {
    if alts != [] {
      CoversSplit(ends, Bounds(alts[0]), BoundList(alts[1..]));
      SameDenotes(u, v, ends, alts[0]);
      SameGap(u, v, ends, open, alts[0]);
      AlternativeStep(u, open, alts[0]);
      SameLine(u, v, ends, OpenAfter(open, alts[0]), alts[1..]);
      DenotesAnyCons(u, alts);
      DenotesAnyCons(v, alts);
    }
  }

  // ---------------------------------------------------------------------------------------
  // Deciding a text
  // ---------------------------------------------------------------------------------------

  /** Some line of the text is read as covering the release. */
  predicate ReadsAny(v: Version, texts: seq<seq<Alternative>>) {
    exists k :: 0 <= k < |texts| && Reads(v, None, BoundList(texts[k]))
  }

  /** What the reading does with a release. */
  predicate Alike(u: Version, v: Version, texts: seq<seq<Alternative>>) {
    && (ReadsAny(u, texts) <==> ReadsAny(v, texts))
    && (DenotesText(u, texts) <==> DenotesText(v, texts))
    && (InGapText(u, texts) <==> InGapText(v, texts))
    && (InExcessText(u, texts) <==> InExcessText(v, texts))
  }

  /** Every release is treated like one of the ends. */
  lemma EndStandsFor(v: Version, texts: seq<seq<Alternative>>) returns (e: Version)
    ensures e in Ends(texts) && Alike(e, v, texts)
  {
    var ends := EndsOfTexts(texts);
    e := EndBelow(v, ends);
    forall k | 0 <= k < |texts|
      ensures Reads(e, None, BoundList(texts[k])) <==> Reads(v, None, BoundList(texts[k]))
      ensures DenotesAny(e, texts[k]) <==> DenotesAny(v, texts[k])
      ensures InGap(e, None, texts[k]) <==> InGap(v, None, texts[k])
      ensures InExcess(e, None, texts[k]) <==> InExcess(v, None, texts[k])
    {
      TextEndsCover(texts, k);
      SameReads(e, v, ends, None, BoundList(texts[k]));
      SameLine(e, v, ends, None, texts[k]);
    }
  }

  /** Releases that are accepted without being named come from empty pairs. */
  lemma AddedOnlyInExcess(texts: seq<seq<Alternative>>, v: Version)
    requires Written(texts)
    ensures ReadsAny(v, texts) ==> DenotesText(v, texts) || InExcessText(v, texts)
  {
    forall k | 0 <= k < |texts|
      ensures Reads(v, None, BoundList(texts[k])) ==> DenotesAny(v, texts[k]) || InExcess(v, None, texts[k])
    {
      ReadOrAdded(v, None, texts[k]);
    }
  }

  /** Named, in a gap, and not read by the rest of the text. */
  predicate Dropped(v: Version, texts: seq<seq<Alternative>>) {
    DenotesText(v, texts) && InGapText(v, texts) && !ReadsAny(v, texts)
  }

  /** Read, in the excess of an empty pair, and not named by the rest of the text. */
  predicate Added(v: Version, texts: seq<seq<Alternative>>) {
    ReadsAny(v, texts) && InExcessText(v, texts) && !DenotesText(v, texts)
  }

  /** Release by release: under-matching is `Dropped`, over-matching is `Added`. */
  lemma ErrorsAre(texts: seq<seq<Alternative>>, v: Version)
    requires Written(texts)
    ensures Normalized(Spellings(texts)).Ok?
    ensures DenotesText(v, texts) && !Accepts(Normalized(Spellings(texts)).value, v) <==> Dropped(v, texts)
    ensures Accepts(Normalized(Spellings(texts)).value, v) && !DenotesText(v, texts) <==> Added(v, texts)
  {
    WrittenIsRead(texts, v);
    LossOnlyInGaps(texts, v);
    AddedOnlyInExcess(texts, v);
  }

  /**
   When the documented failure direction holds, for every text, empty and crossed alternatives
   included: no release that is named is refused if and only if no end is dropped.  A text without a
   harmful step has no gap to drop one in.
   */
  lemma UnderMatchExactly(texts: seq<seq<Alternative>>)
    requires Written(texts)
    ensures Normalized(Spellings(texts)).Ok?
    ensures (forall v :: DenotesText(v, texts) ==> Accepts(Normalized(Spellings(texts)).value, v))
       <==> (forall e :: e in Ends(texts) ==> !Dropped(e, texts))
    ensures HarmlessText(texts) ==> forall v :: DenotesText(v, texts) ==> Accepts(Normalized(Spellings(texts)).value, v)
  {
    HarmlessTextExactly(texts);
    ErrorsAre(texts, ZERO);
    forall v ensures DenotesText(v, texts) && !Accepts(Normalized(Spellings(texts)).value, v) <==> Dropped(v, texts) {
      ErrorsAre(texts, v);
    }
    forall v | Dropped(v, texts) ensures exists e :: e in Ends(texts) && Dropped(e, texts) {
      var e := EndStandsFor(v, texts);
    }
  }

  /** When nothing is matched too many, again for every text: if and only if no end is added. */
  lemma OverMatchExactly(texts: seq<seq<Alternative>>)
    requires Written(texts)
    ensures Normalized(Spellings(texts)).Ok?
    ensures (forall v :: Accepts(Normalized(Spellings(texts)).value, v) ==> DenotesText(v, texts))
       <==> (forall e :: e in Ends(texts) ==> !Added(e, texts))
  {
    ErrorsAre(texts, ZERO);
    forall v ensures Accepts(Normalized(Spellings(texts)).value, v) && !DenotesText(v, texts) <==> Added(v, texts) {
      ErrorsAre(texts, v);
    }
    forall v | Added(v, texts) ensures exists e :: e in Ends(texts) && Added(e, texts) {
      var e := EndStandsFor(v, texts);
    }
  }

  /**
   The exact condition for every text: the union of the alternatives is recovered if and only if no
   end is dropped and none is added.  If no alternative is empty nothing is ever added, and a gap
   holds only what is named.
   */
  lemma RecoveredExactly(texts: seq<seq<Alternative>>)
    requires Written(texts)
    ensures Normalized(Spellings(texts)).Ok?
    ensures (forall v :: Accepts(Normalized(Spellings(texts)).value, v) <==> DenotesText(v, texts))
       <==> (forall e :: e in Ends(texts) ==> !Dropped(e, texts) && !Added(e, texts))
    ensures NonEmptyText(texts) ==>
              ((forall v :: Accepts(Normalized(Spellings(texts)).value, v) <==> DenotesText(v, texts))
               <==> (forall e :: e in Ends(texts) && InGapText(e, texts) ==> ReadsAny(e, texts)))
  {
    UnderMatchExactly(texts);
    OverMatchExactly(texts);
    if NonEmptyText(texts) {
      forall v ensures !Added(v, texts) && (Dropped(v, texts) <==> InGapText(v, texts) && !ReadsAny(v, texts)) {
        ErrorsAre(texts, v);
        ReadWithinNamed(texts, v);
      }
    }
  }
}
