/**
 What the groups accept, for arbitrary atoms: a reading of the atom list that keeps only the bound
 still waiting for a partner.
 */
module AdvisoryReading {
  import opened Common
  import opened Semver
  import opened AdvisoryRanges

  // ---------------------------------------------------------------------------------------
  // What groups accept
  // ---------------------------------------------------------------------------------------

  predicate Accepts(groups: seq<seq<Atom>>, v: Version) {
    exists i :: 0 <= i < |groups| && SatisfiesAll(v, Comparators(groups[i]))
  }

  lemma AcceptsSnoc(groups: seq<seq<Atom>>, group: seq<Atom>, v: Version)
    ensures Accepts(groups + [group], v) <==> Accepts(groups, v) || SatisfiesAll(v, Comparators(group))
  {
    var all := groups + [group];
    assert all[|groups|] == group;
    if Accepts(groups, v) {
      var i :| 0 <= i < |groups| && SatisfiesAll(v, Comparators(groups[i]));
      assert all[i] == groups[i];
    }
    if Accepts(all, v) {
      var i :| 0 <= i < |all| && SatisfiesAll(v, Comparators(all[i]));
      assert i < |groups| ==> all[i] == groups[i];
    }
  }

  lemma OneAtom(a: Atom, v: Version)
    ensures SatisfiesAll(v, Comparators([a])) <==> Satisfies(v, a.cmp)
  {
    assert Comparators([a])[0] == a.cmp;
  }

  lemma TwoAtoms(a: Atom, b: Atom, v: Version)
    ensures Comparators([a, b]) == [a.cmp, b.cmp]
    ensures SatisfiesAll(v, Comparators([a, b])) <==> Satisfies(v, a.cmp) && Satisfies(v, b.cmp)
  {
    var cs := Comparators([a, b]);
    assert cs[0] == a.cmp && cs[1] == b.cmp;
  }

  // ---------------------------------------------------------------------------------------
  // The reading
  // ---------------------------------------------------------------------------------------

  predicate IsBound(a: Atom) {
    a.kind.LowerBound? || a.kind.UpperBound?
  }

  predicate Opposite(a: Atom, b: Atom) {
    (a.kind.LowerBound? && b.kind.UpperBound?) || (a.kind.UpperBound? && b.kind.LowerBound?)
  }

  /** `r` is read as the other end of the waiting bound. */
  predicate Pairs(open: Option<Atom>, r: Atom) {
    open.Some? && Opposite(open.value, r) && IsSatisfiable([open.value.cmp, r.cmp])
  }

  function NextOpen(open: Option<Atom>, r: Atom): Option<Atom> {
    if IsBound(r) && !Pairs(open, r) then Some(r) else None
  }

  predicate OpenAccepts(v: Version, open: Option<Atom>) {
    open.Some? && Satisfies(v, open.value.cmp)
  }

  /** What reading `r` adds for good. */
  predicate Settled(v: Version, open: Option<Atom>, r: Atom) {
    if Pairs(open, r) then Satisfies(v, open.value.cmp) && Satisfies(v, r.cmp)
    else OpenAccepts(v, open) || (!IsBound(r) && Satisfies(v, r.cmp))
  }

  predicate Reads(v: Version, open: Option<Atom>, atoms: seq<Atom>)
    decreases |atoms|
  {
    if atoms == [] then OpenAccepts(v, open)
    else Settled(v, open, atoms[0]) || Reads(v, NextOpen(open, atoms[0]), atoms[1..])
  }

  // ---------------------------------------------------------------------------------------
  // The grouping loop follows the reading
  // ---------------------------------------------------------------------------------------

  predicate Stands(g: Grouping, open: Option<Atom>) {
    match |g.current|
    case 0 => open.None? && !g.hasLower && !g.hasUpper
    case 1 =>
      && open == Some(g.current[0]) && IsBound(g.current[0])
      && g.hasLower == g.current[0].kind.LowerBound? && g.hasUpper == g.current[0].kind.UpperBound?
    case 2 => open.None? && g.hasLower && g.hasUpper
    case _ => false
  }

  /** Accepted whatever comes next: the finished groups and a full open one. */
  predicate Closed(g: Grouping, v: Version) {
    Accepts(g.groups, v) || (|g.current| == 2 && SatisfiesAll(v, Comparators(g.current)))
  }

  lemma FlushCloses(g: Grouping, open: Option<Atom>, v: Version)
    requires Stands(g, open)
    ensures Accepts(Flush(g).groups, v) <==> Closed(g, v) || OpenAccepts(v, open)
  {
    if g.current != [] {
      AcceptsSnoc(g.groups, g.current, v);
      if |g.current| == 1 {
        assert g.current == [g.current[0]];
        OneAtom(g.current[0], v);
      }
    }
  }

  /** A bound that opens a group of its own. */
  lemma PlaceOpens(g: Grouping, open: Option<Atom>, r: Atom, v: Version)
    requires Stands(g, open) && IsBound(r) && !Pairs(open, r)
    ensures Stands(Place(g, r), Some(r)) && (Closed(Place(g, r), v) <==> Closed(g, v) || OpenAccepts(v, open))
  {
    FlushCloses(g, open, v);
    assert [] + [r] == [r];
    if |g.current| == 1 {
      assert g.current + [r] == [open.value, r];
      TwoAtoms(open.value, r, v);
    }
  }

  lemma PlacePairs(g: Grouping, open: Option<Atom>, r: Atom, v: Version)
    requires Stands(g, open) && Pairs(open, r)
    ensures Stands(Place(g, r), None)
    ensures Closed(Place(g, r), v) <==> Closed(g, v) || (Satisfies(v, open.value.cmp) && Satisfies(v, r.cmp))
  {
    assert g.current + [r] == [open.value, r];
    TwoAtoms(open.value, r, v);
  }

  lemma PlaceReads(g: Grouping, open: Option<Atom>, r: Atom, v: Version)
    requires Stands(g, open)
    ensures Stands(Place(g, r), NextOpen(open, r))
    ensures Closed(Place(g, r), v) <==> Closed(g, v) || Settled(v, open, r)
  {
    if Pairs(open, r) {
      PlacePairs(g, open, r, v);
    } else if IsBound(r) {
      PlaceOpens(g, open, r, v);
    } else {
      FlushCloses(g, open, v);
      AcceptsSnoc(Flush(g).groups, [r], v);
      OneAtom(r, v);
    }
  }

  lemma {:induction false} RunReads(g: Grouping, open: Option<Atom>, atoms: seq<Atom>, v: Version)
    requires Stands(g, open)
    ensures Accepts(Flush(Run(g, atoms)).groups, v) <==> Closed(g, v) || Reads(v, open, Rewritten(atoms))
    decreases |atoms|
  {
    if atoms == [] {
      FlushCloses(g, open, v);
    } else {
      var r := Rewrite(atoms[0], NextIsUpper(atoms));
      PlaceReads(g, open, r, v);
      RunReads(Place(g, r), NextOpen(open, r), atoms[1..], v);
      assert Rewritten(atoms)[1..] == Rewritten(atoms[1..]);
    }
  }

  /** The groups of any atom list accept exactly what its reading accepts. */
  lemma GroupsReadExactly(groups: seq<seq<Atom>>, atoms: seq<Atom>, v: Version)
    ensures Accepts(GroupAtoms(groups, atoms), v) <==> Accepts(groups, v) || Reads(v, None, Rewritten(atoms))
  {
    RunReads(Start(groups), None, atoms, v);
  }

  predicate ReadsText(v: Version, hardGroups: seq<seq<Token>>) {
    exists k :: 0 <= k < |hardGroups| && Reads(v, None, Rewritten(Tokenized(hardGroups[k])))
  }

  lemma ReadsTextCons(v: Version, hardGroups: seq<seq<Token>>)
    requires hardGroups != []
    ensures ReadsText(v, hardGroups)
       <==> Reads(v, None, Rewritten(Tokenized(hardGroups[0]))) || ReadsText(v, hardGroups[1..])
  {
    assert forall k :: 0 <= k < |hardGroups[1..]| ==> hardGroups[1..][k] == hardGroups[k + 1];
    assert forall k :: 1 <= k < |hardGroups| ==> hardGroups[k] == hardGroups[1..][k - 1];
  }

  lemma {:induction false} GroupAllReads(groups: seq<seq<Atom>>, hardGroups: seq<seq<Token>>, v: Version)
    requires GroupAll(groups, hardGroups).Ok?
    ensures Accepts(GroupAll(groups, hardGroups).value, v) <==> Accepts(groups, v) || ReadsText(v, hardGroups)
    decreases |hardGroups|
  {
    if hardGroups != [] {
      var atoms := Tokenized(hardGroups[0]);
      GroupsReadExactly(groups, atoms, v);
      GroupAllReads(GroupAtoms(groups, atoms), hardGroups[1..], v);
      ReadsTextCons(v, hardGroups);
    }
  }

  /** An accepted text, of any tokens at all, accepts exactly what its reading accepts. */
  lemma TextReadsExactly(hardGroups: seq<seq<Token>>, v: Version)
    requires Normalized(hardGroups).Ok?
    ensures Accepts(Normalized(hardGroups).value, v) <==> ReadsText(v, hardGroups)
  {
    GroupAllReads([], hardGroups, v);
  }
}
