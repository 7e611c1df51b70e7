/** Which texts are refused, and as what, token by token. */
module AdvisoryRefusals {
  import opened Common
  import opened Semver
  import opened AdvisoryRanges
  import opened AdvisoryRangeMeaning

  /** An operand semver cannot read, with or without an operator before it. */
  predicate IsGarbled(t: Token) {
    t == Bare(Garbled) || (t.Operator? && t.x == Garbled)
  }

  predicate HoldsGarbled(tokens: seq<Token>) {
    exists i :: 0 <= i < |tokens| && IsGarbled(tokens[i])
  }

  predicate HoldsUnreadable(atoms: seq<Atom>) {
    exists i :: 0 <= i < |atoms| && atoms[i].cmp.Unreadable?
  }

  lemma UnreadableCons(a: Atom, rest: seq<Atom>)
    requires a.cmp.Unreadable? || HoldsUnreadable(rest)
    ensures HoldsUnreadable([a] + rest)
  {
    if a.cmp.Unreadable? {
      assert ([a] + rest)[0].cmp.Unreadable?;
    } else {
      var i :| 0 <= i < |rest| && rest[i].cmp.Unreadable?;
      assert ([a] + rest)[i + 1].cmp.Unreadable?;
    }
  }

  /** No operand is lost on the way to the atoms, wherever it stands. */
  lemma {:induction false} GarbledIsUnreadable(tokens: seq<Token>)
    requires HoldsGarbled(tokens)
    ensures HoldsUnreadable(Tokenized(tokens))
  {
    var i :| 0 <= i < |tokens| && IsGarbled(tokens[i]);
    if StartsHyphen(tokens) {
      if i >= 3 {
        assert tokens[3..][i - 3] == tokens[i];
        GarbledIsUnreadable(tokens[3..]);
      }
      UnreadableCons(HyphenAtom(tokens[0], tokens[2]), Tokenized(tokens[3..]));
    } else {
      if i >= 1 {
        assert tokens[1..][i - 1] == tokens[i];
        GarbledIsUnreadable(tokens[1..]);
      }
      UnreadableCons(AtomOf(tokens[0]), Tokenized(tokens[1..]));
    }
  }

  lemma {:induction false} RewrittenStaysUnreadable(atoms: seq<Atom>)
    requires HoldsUnreadable(atoms)
    ensures HoldsUnreadable(Rewritten(atoms))
  {
    var i :| 0 <= i < |atoms| && atoms[i].cmp.Unreadable?;
    if i > 0 {
      assert atoms[1..][i - 1] == atoms[i];
      RewrittenStaysUnreadable(atoms[1..]);
    }
    UnreadableCons(Rewrite(atoms[0], NextIsUpper(atoms)), Rewritten(atoms[1..]));
  }

  lemma {:induction false} TextHoldsUnreadable(hardGroups: seq<seq<Token>>, h: nat)
    requires h < |hardGroups| && HoldsUnreadable(Tokenized(hardGroups[h]))
    ensures HoldsUnreadable(AtomsOfText(hardGroups))
  {
    var first, rest := Rewritten(Tokenized(hardGroups[0])), AtomsOfText(hardGroups[1..]);
    if h == 0 {
      RewrittenStaysUnreadable(Tokenized(hardGroups[0]));
      var i :| 0 <= i < |first| && first[i].cmp.Unreadable?;
      assert (first + rest)[i].cmp.Unreadable?;
    } else {
      TextHoldsUnreadable(hardGroups[1..], h - 1);
      var i :| 0 <= i < |rest| && rest[i].cmp.Unreadable?;
      assert (first + rest)[|first| + i].cmp.Unreadable?;
    }
  }

  /** One operand that cannot be read refuses the whole text: it is never dropped and never matches anything. */
  lemma GarbledIsRefused(hardGroups: seq<seq<Token>>, h: nat)
    requires h < |hardGroups| && HoldsGarbled(hardGroups[h])
    ensures Normalized(hardGroups).Err?
    ensures (forall k :: 0 <= k < |hardGroups| ==> hardGroups[k] != []) ==> Normalized(hardGroups) == Err(NotSemver)
  {
    GarbledIsUnreadable(hardGroups[h]);
    TextHoldsUnreadable(hardGroups, h);
    RejectedExactly(hardGroups);
    RefusedAs(hardGroups);
  }

  lemma AtomsWhereTokens(tokens: seq<Token>)
    ensures Tokenized(tokens) == [] <==> tokens == []
  {}

  /**
   What a text is refused as: nothing to read, an empty alternative, not semver, or an alternative
   no release matches.
   */
  lemma RefusedAs(hardGroups: seq<seq<Token>>)
    ensures Normalized(hardGroups) == Err(EmptyRange) <==> hardGroups == []
    ensures Normalized(hardGroups) == Err(NoAtoms) <==> exists k :: 0 <= k < |hardGroups| && hardGroups[k] == []
    ensures Normalized(hardGroups) == Err(NotSemver) <==>
              && hardGroups != [] && (forall k :: 0 <= k < |hardGroups| ==> hardGroups[k] != [])
              && HoldsUnreadable(AtomsOfText(hardGroups))
    ensures Normalized(hardGroups) == Err(DeadAlternative) <==>
              && hardGroups != [] && (forall k :: 0 <= k < |hardGroups| ==> hardGroups[k] != [])
              && !HoldsUnreadable(AtomsOfText(hardGroups)) && !AllAtomsAlive(AtomsOfText(hardGroups))
  {
    forall k | 0 <= k < |hardGroups| ensures Tokenized(hardGroups[k]) == [] <==> hardGroups[k] == [] {
      AtomsWhereTokens(hardGroups[k]);
    }
    RejectedExactly(hardGroups);
    GroupAllConserves([], hardGroups);
    GroupErrors([], hardGroups);
    if hardGroups != [] && EveryGroupHasAtoms(hardGroups) {
      TokensGiveAtoms(hardGroups);
      assert GroupAll([], hardGroups).value != [];
    }
  }

  /** A spaced hyphen between two versions, either written with `=`, is one window; any other operator there is not. */
  lemma HyphenEnds(from: Token, to: Token, rest: seq<Token>)
    ensures Tokenized([from, Dash, to] + rest)
         == [Atom(Window,
                  if (from.Bare? || (from.Operator? && from.sym == EQ)) && (to.Bare? || (to.Operator? && to.sym == EQ))
                     && from.x.Readable? && to.x.Readable?
                  then Hyphen(from.x.p, to.x.p) else Unreadable)]
            + Tokenized(rest)
  {
    var t := [from, Dash, to] + rest;
    assert t[3..] == rest;
  }
}
