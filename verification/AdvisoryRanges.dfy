/**
 Reading a hand-written vulnerable-version range as an OR of AND-groups.  The text reaches this
 module already cleaned and cut at its hard OR boundaries (`;`, `||`) into token lists.
 */
module AdvisoryRanges {
  import opened Common
  import opened Semver

  // ---------------------------------------------------------------------------------------
  // Tokens and atoms
  // ---------------------------------------------------------------------------------------

  datatype Operand = Readable(p: Partial) | Garbled

  datatype Symbol = GE | LE | GT | LT | EQ | CARET | TILDE

  /** A separator-free token: `-`, `1.2.3`, `1.0.0-1.2.0`, or an operator glued to its operand. */
  datatype Token = Dash | Bare(x: Operand) | Glued(a: Version, b: Version) | Operator(sym: Symbol, x: Operand)

  datatype Kind = LowerBound | UpperBound | ExactVersion | Window

  datatype Atom = Atom(kind: Kind, cmp: Comparator)

  /** A hyphen endpoint; semver tolerates a leading `=` there and nothing else. */
  function EndpointOf(t: Token): Operand {
    match t
    case Bare(x) => x
    case Operator(EQ, x) => x
    case _ => Garbled
  }

  function HyphenAtom(from: Token, to: Token): Atom {
    match (EndpointOf(from), EndpointOf(to))
    case (Readable(a), Readable(b)) => Atom(Window, Hyphen(a, b))
    case _ => Atom(Window, Unreadable)
  }

  function SymbolKind(sym: Symbol): Kind {
    match sym
    case GE => LowerBound
    case GT => LowerBound
    case LE => UpperBound
    case LT => UpperBound
    case EQ => ExactVersion
    case CARET => Window
    case TILDE => Window
  }

  function Apply(sym: Symbol, x: Operand): Comparator {
    match x
    case Garbled => Unreadable
    case Readable(p) =>
      match sym
      case GE => Ge(p)
      case GT => Gt(p)
      case LE => AtMost(p)
      case LT => Less(p)
      case EQ => Exactly(p)
      case CARET => Caret(p)
      case TILDE => Tilde(p)
  }

  function AtomOf(t: Token): Atom {
    match t
    case Dash => Atom(ExactVersion, Unreadable)
    case Bare(x) => Atom(ExactVersion, Apply(EQ, x))
    case Glued(a, b) => Atom(Window, Hyphen(Full(a), Full(b)))
    case Operator(sym, x) => Atom(SymbolKind(sym), Apply(sym, x))
  }

  predicate StartsHyphen(tokens: seq<Token>) {
    |tokens| >= 3 && tokens[1] == Dash
  }

  /** The atoms of a token list: a spaced hyphen triple is one atom, any other token is one. */
  function Tokenized(tokens: seq<Token>): seq<Atom> {
    if tokens == [] then []
    else if StartsHyphen(tokens) then [HyphenAtom(tokens[0], tokens[2])] + Tokenized(tokens[3..])
    else [AtomOf(tokens[0])] + Tokenized(tokens[1..])
  }

  method TokenizeAtoms(tokens: seq<Token>) returns (atoms: seq<Atom>)
    ensures atoms == Tokenized(tokens)
  {
    atoms := [];
    var i := 0;
    while i < |tokens|
      invariant 0 <= i <= |tokens|
      invariant atoms + Tokenized(tokens[i..]) == Tokenized(tokens)
    {
      var token := tokens[i];
      assert tokens[i..][1..] == tokens[i + 1..];
      if i + 2 < |tokens| && tokens[i + 1] == Dash {
        assert tokens[i..][3..] == tokens[i + 3..];
        atoms := atoms + [HyphenAtom(token, tokens[i + 2])];
        i := i + 3;
      } else {
        atoms := atoms + [AtomOf(token)];
        i := i + 1;
      }
    }
  }

  // ---------------------------------------------------------------------------------------
  // Grouping
  // ---------------------------------------------------------------------------------------

  function Comparators(group: seq<Atom>): (cs: seq<Comparator>)
    ensures |cs| == |group|
  {
    seq(|group|, i requires 0 <= i < |group| => group[i].cmp)
  }

  predicate IsSatisfiable(cs: seq<Comparator>) {
    MinVersion(cs).Some?
  }

  /** The loop's state: finished groups, the open group, and the directions it already has. */
  datatype Grouping = Grouping(groups: seq<seq<Atom>>, current: seq<Atom>, hasLower: bool, hasUpper: bool)

  function Flush(g: Grouping): Grouping {
    Grouping(if g.current != [] then g.groups + [g.current] else g.groups, [], false, false)
  }

  /** `1.2.0 <3` means `>=1.2.0 <3`: the cap that follows turns an exact atom into a lower bound. */
  function Rewrite(a: Atom, nextIsUpper: bool): Atom {
    if a.kind.ExactVersion? && nextIsUpper
    then Atom(LowerBound, if a.cmp.Exactly? then Ge(a.cmp.p) else Unreadable)
    else a
  }

  predicate DirectionTaken(g: Grouping, kind: Kind) {
    (kind.LowerBound? && g.hasLower) || (kind.UpperBound? && g.hasUpper)
  }

  function Place(g: Grouping, r: Atom): Grouping {
    if r.kind.ExactVersion? || r.kind.Window? then
      var f := Flush(g);
      f.(groups := f.groups + [[r]])
    else
      var h := if g.current != [] && (DirectionTaken(g, r.kind) || !IsSatisfiable(Comparators(g.current + [r])))
               then Flush(g) else g;
      h.(current := h.current + [r],
         hasLower := h.hasLower || r.kind.LowerBound?,
         hasUpper := h.hasUpper || r.kind.UpperBound?)
  }

  predicate NextIsUpper(atoms: seq<Atom>) {
    |atoms| > 1 && atoms[1].kind.UpperBound?
  }

  function Rewritten(atoms: seq<Atom>): seq<Atom> {
    if atoms == [] then [] else [Rewrite(atoms[0], NextIsUpper(atoms))] + Rewritten(atoms[1..])
  }

  function Run(g: Grouping, atoms: seq<Atom>): Grouping
    decreases |atoms|
  {
    if atoms == [] then g
    else Run(Place(g, Rewrite(atoms[0], NextIsUpper(atoms))), atoms[1..])
  }

  function Start(groups: seq<seq<Atom>>): Grouping {
    Grouping(groups, [], false, false)
  }

  function GroupAtoms(groups: seq<seq<Atom>>, atoms: seq<Atom>): seq<seq<Atom>> {
    Flush(Run(Start(groups), atoms)).groups
  }

  datatype RangeError = EmptyRange | NoAtoms | NotSemver | DeadAlternative

  function GroupAll(groups: seq<seq<Atom>>, hardGroups: seq<seq<Token>>): Result<seq<seq<Atom>>, RangeError>
    decreases |hardGroups|
  {
    if hardGroups == [] then Ok(groups)
    else if Tokenized(hardGroups[0]) == [] then Err(NoAtoms)
    else GroupAll(GroupAtoms(groups, Tokenized(hardGroups[0])), hardGroups[1..])
  }

  predicate AllAlive(groups: seq<seq<Atom>>) {
    forall i :: 0 <= i < |groups| ==> IsSatisfiable(Comparators(groups[i]))
  }

  predicate ReadableGroup(group: seq<Atom>) {
    forall i :: 0 <= i < |group| ==> !group[i].cmp.Unreadable?
  }

  /** Semver parses the groups put together again. */
  predicate AllReadable(groups: seq<seq<Atom>>) {
    forall i :: 0 <= i < |groups| ==> ReadableGroup(groups[i])
  }

  function Normalized(hardGroups: seq<seq<Token>>): Result<seq<seq<Atom>>, RangeError> {
    match GroupAll([], hardGroups)
    case Err(e) => Err(e)
    case Ok(groups) =>
      if groups == [] then Err(EmptyRange)
      else if !AllReadable(groups) then Err(NotSemver)
      else if !AllAlive(groups) then Err(DeadAlternative)
      else Ok(groups)
  }

  method NormalizeAdvisoryRange(hardGroups: seq<seq<Token>>) returns (r: Result<seq<seq<Atom>>, RangeError>)
    ensures r == Normalized(hardGroups)
  {
    var orGroups: seq<seq<Atom>> := [];
    var h := 0;
    while h < |hardGroups|
      invariant 0 <= h <= |hardGroups|
      invariant GroupAll([], hardGroups) == GroupAll(orGroups, hardGroups[h..])
    {
      var atoms := TokenizeAtoms(hardGroups[h]);
      assert hardGroups[h..][1..] == hardGroups[h + 1..];
      if |atoms| == 0 {
        return Err(NoAtoms);
      }
      var current: seq<Atom> := [];
      var hasLower, hasUpper := false, false;
      ghost var before := orGroups;
      for i := 0 to |atoms|
        invariant Run(Grouping(orGroups, current, hasLower, hasUpper), atoms[i..]) == Run(Start(before), atoms)
      {
        var atom := atoms[i];
        assert atoms[i..][1..] == atoms[i + 1..];
        var impliedLower := atom.kind.ExactVersion? && i + 1 < |atoms| && atoms[i + 1].kind.UpperBound?;
        var bound := Rewrite(atom, impliedLower);
        if bound.kind.ExactVersion? || bound.kind.Window? {
          if |current| > 0 {
            orGroups := orGroups + [current];
          }
          current, hasLower, hasUpper := [], false, false;
          orGroups := orGroups + [[bound]];
          continue;
        }
        var taken := (bound.kind.LowerBound? && hasLower) || (bound.kind.UpperBound? && hasUpper);
        if |current| > 0 && (taken || !IsSatisfiable(Comparators(current + [bound]))) {
          orGroups := orGroups + [current];
          current, hasLower, hasUpper := [], false, false;
        }
        if bound.kind.LowerBound? {
          hasLower := true;
        } else {
          hasUpper := true;
        }
        current := current + [bound];
      }
      if |current| > 0 {
        orGroups := orGroups + [current];
      }
      h := h + 1;
    }
    if |orGroups| == 0 {
      return Err(EmptyRange);
    }
    if !AllReadable(orGroups) {
      return Err(NotSemver);
    }
    for k := 0 to |orGroups|
      invariant forall j :: 0 <= j < k ==> IsSatisfiable(Comparators(orGroups[j]))
    {
      if !IsSatisfiable(Comparators(orGroups[k])) {
        return Err(DeadAlternative);
      }
    }
    return Ok(orGroups);
  }
}
