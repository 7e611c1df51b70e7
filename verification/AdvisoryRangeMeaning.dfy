/**
 What grouping promises: the shape of every group and the conservation of atoms, exactly when a
 range is rejected, and that the OR of groups accepts the union of the alternatives written down.
 */
module AdvisoryRangeMeaning {
  import opened Common
  import opened Semver
  import opened AdvisoryRanges

  // ---------------------------------------------------------------------------------------
  // Shape and conservation, for arbitrary atoms
  // ---------------------------------------------------------------------------------------

  /** At most one bound in each direction, and a window or exact version stands alone. */
  predicate Shapely(group: seq<Atom>) {
    || |group| == 1
    || (|group| == 2
        && ((group[0].kind.LowerBound? && group[1].kind.UpperBound?)
            || (group[0].kind.UpperBound? && group[1].kind.LowerBound?)))
  }

  ghost predicate Inhabited(group: seq<Atom>) {
    exists v :: SatisfiesAll(v, Comparators(group))
  }

  predicate AtomAlive(a: Atom) {
    IsSatisfiable([a.cmp])
  }

  /** A group matches some release exactly when each of its comparators does on its own. */
  predicate AliveByAtom(group: seq<Atom>) {
    IsSatisfiable(Comparators(group)) <==> forall i :: 0 <= i < |group| ==> AtomAlive(group[i])
  }

  ghost predicate Inv(g: Grouping) {
    && (forall i :: 0 <= i < |g.groups| ==> Shapely(g.groups[i]) && AliveByAtom(g.groups[i]))
    && (g.current == [] ==> !g.hasLower && !g.hasUpper)
    && (g.current != [] ==>
          && Shapely(g.current) && AliveByAtom(g.current)
          && (forall i :: 0 <= i < |g.current| ==> g.current[i].kind.LowerBound? || g.current[i].kind.UpperBound?)
          && (g.hasLower <==> g.current[0].kind.LowerBound? || |g.current| == 2)
          && (g.hasUpper <==> g.current[0].kind.UpperBound? || |g.current| == 2))
  }

  function Content(g: Grouping): seq<Atom> {
    Flatten(g.groups) + g.current
  }

  lemma FlushInv(g: Grouping)
    requires Inv(g)
    ensures Inv(Flush(g)) && Content(Flush(g)) == Content(g)
  {
    FlattenSnoc(g.groups, g.current);
  }

  lemma SingletonAlive(a: Atom)
    ensures AliveByAtom([a])
  {
    assert Comparators([a]) == [a.cmp];
  }

  lemma SatisfiableMember(group: seq<Atom>, i: nat)
    requires i < |group| && IsSatisfiable(Comparators(group))
    ensures AtomAlive(group[i])
  {
    MinVersionDecides(Comparators(group));
    MinVersionDecides([group[i].cmp]);
    var v :| SatisfiesAll(v, Comparators(group));
    assert Satisfies(v, Comparators(group)[i]);
    assert SatisfiesAll(v, [group[i].cmp]);
  }

  lemma JoinAlive(g: Grouping, r: Atom)
    requires |g.current| == 1 && IsSatisfiable(Comparators(g.current + [r]))
    ensures AliveByAtom(g.current + [r])
  {
    var joined := g.current + [r];
    forall i | 0 <= i < |joined| ensures AtomAlive(joined[i]) {
      SatisfiableMember(joined, i);
    }
  }

  /** Joining the open group: it had one bound, in the other direction. */
  lemma JoinInv(g: Grouping, r: Atom)
    requires Inv(g) && g.current != [] && (r.kind.LowerBound? || r.kind.UpperBound?)
    requires !DirectionTaken(g, r.kind) && IsSatisfiable(Comparators(g.current + [r]))
    ensures Inv(Place(g, r)) && Content(Place(g, r)) == Content(g) + [r]
  {
    assert |g.current| == 1;
    JoinAlive(g, r);
  }

  lemma OpenInv(g: Grouping, r: Atom)
    requires Inv(g) && g.current == [] && (r.kind.LowerBound? || r.kind.UpperBound?)
    ensures Inv(Place(g, r)) && Content(Place(g, r)) == Content(g) + [r]
  {
    SingletonAlive(r);
    assert g.current + [r] == [r];
  }

  lemma PlaceInv(g: Grouping, r: Atom)
    requires Inv(g)
    ensures Inv(Place(g, r)) && Content(Place(g, r)) == Content(g) + [r]
  {
    FlushInv(g);
    if r.kind.ExactVersion? || r.kind.Window? {
      SingletonAlive(r);
      FlattenSnoc(Flush(g).groups, [r]);
    } else if g.current == [] {
      OpenInv(g, r);
    } else if DirectionTaken(g, r.kind) || !IsSatisfiable(Comparators(g.current + [r])) {
      OpenInv(Flush(g), r);
      assert Place(g, r) == Place(Flush(g), r);
    } else {
      JoinInv(g, r);
    }
  }

  lemma {:induction false} RunInv(g: Grouping, atoms: seq<Atom>)
    requires Inv(g)
    ensures Inv(Run(g, atoms)) && Content(Run(g, atoms)) == Content(g) + Rewritten(atoms)
    decreases |atoms|
  {
    if atoms != [] {
      var r := Rewrite(atoms[0], NextIsUpper(atoms));
      PlaceInv(g, r);
      RunInv(Place(g, r), atoms[1..]);
      Regroup(Content(Run(g, atoms)), Content(g), [r], Rewritten(atoms[1..]), Rewritten(atoms));
    }
  }

  lemma {:induction false} RewrittenLength(atoms: seq<Atom>)
    ensures |Rewritten(atoms)| == |atoms|
  {
    if atoms != [] {
      RewrittenLength(atoms[1..]);
    }
  }

  /**
   For arbitrary atoms: every group holds at most one lower and one upper bound (or is a single
   window or version), and the groups, read in order, are the rewritten atoms, none lost or moved.
   */
  lemma GroupingConserves(groups: seq<seq<Atom>>, atoms: seq<Atom>)
    requires forall i :: 0 <= i < |groups| ==> Shapely(groups[i]) && AliveByAtom(groups[i])
    ensures Flatten(GroupAtoms(groups, atoms)) == Flatten(groups) + Rewritten(atoms)
    ensures forall i :: 0 <= i < |GroupAtoms(groups, atoms)| ==>
              Shapely(GroupAtoms(groups, atoms)[i]) && AliveByAtom(GroupAtoms(groups, atoms)[i])
  {
    RunInv(Start(groups), atoms);
    FlushInv(Run(Start(groups), atoms));
    assert Content(Start(groups)) == Flatten(groups);
    assert Content(Flush(Run(Start(groups), atoms))) == Flatten(GroupAtoms(groups, atoms));
  }

  // ---------------------------------------------------------------------------------------
  // When a range is rejected
  // ---------------------------------------------------------------------------------------

  /** The rewritten atoms of a whole text. */
  function AtomsOfText(hardGroups: seq<seq<Token>>): seq<Atom> {
    if hardGroups == [] then []
    else Rewritten(Tokenized(hardGroups[0])) + AtomsOfText(hardGroups[1..])
  }

  predicate EveryGroupHasAtoms(hardGroups: seq<seq<Token>>) {
    forall i :: 0 <= i < |hardGroups| ==> Tokenized(hardGroups[i]) != []
  }

  lemma EveryGroupCons(hardGroups: seq<seq<Token>>)
    requires hardGroups != []
    ensures EveryGroupHasAtoms(hardGroups) <==> Tokenized(hardGroups[0]) != [] && EveryGroupHasAtoms(hardGroups[1..])
  {
    assert forall i :: 0 <= i < |hardGroups[1..]| ==> hardGroups[1..][i] == hardGroups[i + 1];
    assert forall i :: 1 <= i < |hardGroups| ==> hardGroups[i] == hardGroups[1..][i - 1];
  }

  lemma {:induction false} GroupAllConserves(groups: seq<seq<Atom>>, hardGroups: seq<seq<Token>>)
    requires forall i :: 0 <= i < |groups| ==> Shapely(groups[i]) && AliveByAtom(groups[i])
    ensures GroupAll(groups, hardGroups).Ok? <==> EveryGroupHasAtoms(hardGroups)
    ensures GroupAll(groups, hardGroups).Ok? ==>
              var gs := GroupAll(groups, hardGroups).value;
              && Flatten(gs) == Flatten(groups) + AtomsOfText(hardGroups)
              && forall i :: 0 <= i < |gs| ==> Shapely(gs[i]) && AliveByAtom(gs[i])
    decreases |hardGroups|
  {
    if hardGroups != [] {
      var atoms := Tokenized(hardGroups[0]);
      if atoms != [] {
        GroupingConserves(groups, atoms);
        GroupAllConserves(GroupAtoms(groups, atoms), hardGroups[1..]);
        EveryGroupCons(hardGroups);
        var gs := GroupAll(groups, hardGroups);
        if gs.Ok? {
          Regroup(Flatten(gs.value), Flatten(groups), Rewritten(atoms), AtomsOfText(hardGroups[1..]),
                  AtomsOfText(hardGroups));
        }
      }
    }
  }

  predicate AllAtomsAlive(atoms: seq<Atom>) {
    forall i :: 0 <= i < |atoms| ==> AtomAlive(atoms[i])
  }

  lemma {:induction false} AliveGroupsAliveAtoms(gs: seq<seq<Atom>>)
    requires forall i :: 0 <= i < |gs| ==> AliveByAtom(gs[i])
    ensures AllAlive(gs) <==> AllAtomsAlive(Flatten(gs))
  {
    if gs != [] {
      assert forall i :: 0 <= i < |gs[1..]| ==> gs[1..][i] == gs[i + 1];
      AliveGroupsAliveAtoms(gs[1..]);
      var head, rest := gs[0], Flatten(gs[1..]);
      var all := head + rest;
      assert Flatten(gs) == all;
      assert forall i :: 0 <= i < |rest| ==> rest[i] == all[|head| + i];
      assert forall i :: 0 <= i < |head| ==> head[i] == all[i];
      assert AllAtomsAlive(all) <==> (AllAtomsAlive(head) && AllAtomsAlive(rest));
      assert AllAlive(gs) <==> (IsSatisfiable(Comparators(head)) && AllAlive(gs[1..])) by {
        if AllAlive(gs[1..]) && IsSatisfiable(Comparators(head)) {
          forall i | 0 <= i < |gs| ensures IsSatisfiable(Comparators(gs[i])) {
            if i > 0 {
              assert gs[1..][i - 1] == gs[i];
            }
          }
        }
      }
    }
  }

  lemma {:induction false} TokensGiveAtoms(hardGroups: seq<seq<Token>>)
    requires hardGroups != [] && EveryGroupHasAtoms(hardGroups)
    ensures AtomsOfText(hardGroups) != []
  {
    RewrittenLength(Tokenized(hardGroups[0]));
  }

  lemma {:induction false} ReadableFlat(gs: seq<seq<Atom>>)
    ensures AllReadable(gs) <==> ReadableGroup(Flatten(gs))
  {
    if gs != [] {
      var head, rest := gs[0], Flatten(gs[1..]);
      ReadableFlat(gs[1..]);
      assert forall i :: 0 <= i < |gs[1..]| ==> gs[1..][i] == gs[i + 1];
      assert forall i :: 1 <= i < |gs| ==> gs[i] == gs[1..][i - 1];
      assert forall i :: 0 <= i < |head + rest| ==>
             (head + rest)[i] == if i < |head| then head[i] else rest[i - |head|];
      forall i | 0 <= i < |rest| ensures (head + rest)[|head| + i] == rest[i] {}
    }
  }

  lemma AliveIsReadable(atoms: seq<Atom>)
    requires AllAtomsAlive(atoms)
    ensures ReadableGroup(atoms)
  {
    forall i | 0 <= i < |atoms| ensures !atoms[i].cmp.Unreadable? {
      MinVersionDecides([atoms[i].cmp]);
      var v :| SatisfiesAll(v, [atoms[i].cmp]);
      assert Satisfies(v, [atoms[i].cmp][0]);
    }
  }

  /**
   Rejection, exactly: a text is refused when it has no alternative, an alternative has no atom,
   semver cannot read one of its comparators, or one of them matches no release by itself.  Joining
   bounds never makes a range unreadable, and an accepted range is never silently empty.
   */
  lemma RejectedExactly(hardGroups: seq<seq<Token>>)
    ensures Normalized(hardGroups).Ok? <==>
              hardGroups != [] && EveryGroupHasAtoms(hardGroups) && AllAtomsAlive(AtomsOfText(hardGroups))
    ensures Normalized(hardGroups).Ok? ==>
              var gs := Normalized(hardGroups).value;
              && Flatten(gs) == AtomsOfText(hardGroups)
              && (forall i :: 0 <= i < |gs| ==> Shapely(gs[i]))
              && forall i :: 0 <= i < |gs| ==> Inhabited(gs[i])
    ensures Normalized(hardGroups) == Err(NotSemver) <==>
              hardGroups != [] && EveryGroupHasAtoms(hardGroups) && !ReadableGroup(AtomsOfText(hardGroups))
  {
    GroupAllConserves([], hardGroups);
    GroupErrors([], hardGroups);
    if EveryGroupHasAtoms(hardGroups) {
      var gs := GroupAll([], hardGroups).value;
      assert Flatten(gs) == AtomsOfText(hardGroups);
      if hardGroups != [] {
        TokensGiveAtoms(hardGroups);
      }
      AliveGroupsAliveAtoms(gs);
      ReadableFlat(gs);
      if AllAtomsAlive(AtomsOfText(hardGroups)) {
        AliveIsReadable(AtomsOfText(hardGroups));
      }
      if Normalized(hardGroups).Ok? {
        AliveIsInhabited(gs);
      }
    }
  }

  lemma AliveIsInhabited(gs: seq<seq<Atom>>)
    requires AllAlive(gs)
    ensures forall i :: 0 <= i < |gs| ==> Inhabited(gs[i])
  {
    forall i | 0 <= i < |gs| ensures Inhabited(gs[i]) {
      assert IsSatisfiable(Comparators(gs[i]));
      MinVersionDecides(Comparators(gs[i]));
    }
  }

  lemma {:induction false} GroupErrors(groups: seq<seq<Atom>>, hardGroups: seq<seq<Token>>)
    ensures GroupAll(groups, hardGroups).Err? ==> GroupAll(groups, hardGroups).error == NoAtoms
    decreases |hardGroups|
  {
    if hardGroups != [] && Tokenized(hardGroups[0]) != [] {
      GroupErrors(GroupAtoms(groups, Tokenized(hardGroups[0])), hardGroups[1..]);
    }
  }

  /** Which single comparators can be dead at all. */
  lemma DeadComparators(a: Atom)
    ensures AtomAlive(a) <==>
              match a.cmp
              case Unreadable => false
              case Less(p) => Floor(p) != ZERO
              case Hyphen(x, y) => Lt(Floor(x), Next(y))
              case _ => true
  {
    var cs := [a.cmp];
    assert SatisfiesAll(ZERO, cs) <==> Satisfies(ZERO, a.cmp);
    assert MaxLow(cs) == Later(LowOf(a.cmp), ZERO);
    assert SatisfiesAll(MaxLow(cs), cs) <==> Satisfies(MaxLow(cs), a.cmp);
  }
}
