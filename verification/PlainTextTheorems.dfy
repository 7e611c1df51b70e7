/** What is left after stripping, and why decoding in six passes is decoding in one. */
module PlainTextTheorems {
  import opened Common
  import opened Text
  import opened PlainText

  // ---------------------------------------------------------------------------------------
  // Nothing tag-like is left
  // ---------------------------------------------------------------------------------------

  lemma CompleteTagFires(s: string, i: nat, j: nat)
    requires i + 2 <= j < |s| && s[i] == '<' && s[j] == '>' && s[i + 1] != '>'
    ensures Fires(CompleteTag, s[i..])
  {
    var u := s[i..];
    var v := u[1..];
    assert v[j - i - 1] == '>' && v[0] == s[i + 1];
    UpToFirst(v, '>', j - i - 1);
  }

  lemma IncompleteTagFires(s: string, i: nat)
    requires i + 1 < |s| && s[i] == '<' && Letter(s[i + 1])
    ensures Fires(IncompleteTag, s[i..])
  {
    var u := s[i..];
    assert u[0] == '<' && u[1] == s[i + 1];
  }

  /** A `<` that some `>` closes further on has nothing between, and no `<` is followed by a letter. */
  predicate TagFree(s: string) {
    && (forall i, j :: 0 <= i && i + 2 <= j < |s| && s[i] == '<' && s[j] == '>' ==> s[i + 1] == '>')
    && (forall i :: 0 <= i < |s| - 1 && s[i] == '<' ==> !Letter(s[i + 1]))
  }

  /** Before decoding, the text holds no complete tag and no `<` before a letter. */
  lemma NoMarkupIsLeft(html: string)
    ensures TagFree(StripMarkup(html))
    ensures Subsequence(StripMarkup(html), BlockBreaks(html))
  {
    PatternsDelete();
    var body := Settle(ScriptBlock, StyleBlock, BlockBreaks(html));
    SettleIsStable(ScriptBlock, StyleBlock, BlockBreaks(html));
    SettleIsStable(CompleteTag, IncompleteTag, body);
    SubsequenceTrans(StripMarkup(html), body, BlockBreaks(html));
    var s := StripMarkup(html);
    forall i, j | 0 <= i && i + 2 <= j < |s| && s[i] == '<' && s[j] == '>' ensures s[i + 1] == '>' {
      if s[i + 1] != '>' {
        CompleteTagFires(s, i, j);
      }
    }
    forall i | 0 <= i < |s| - 1 && s[i] == '<' ensures !Letter(s[i + 1]) {
      if Letter(s[i + 1]) {
        IncompleteTagFires(s, i);
      }
    }
  }

  // ---------------------------------------------------------------------------------------
  // Decoding
  // ---------------------------------------------------------------------------------------

  predicate Has(s: string, c: char) {
    exists i :: 0 <= i < |s| && s[i] == c
  }

  /** No entity of the table decodes to a character of `e`, and none is a prefix of `e` or the other way round. */
  predicate Apart(table: seq<Entity>, e: Entity) {
    && (forall k :: 0 <= k < |table| ==> table[k].glyph != '&' && !Has(e.name, table[k].glyph))
    && (forall k :: 0 <= k < |table| ==> !(Written(table[k]) <= Written(e)) && !(Written(e) <= Written(table[k])))
  }

  lemma {:induction false} FirstOfMember(table: seq<Entity>, u: string)
    ensures FirstOf(table, u).Some? ==> FirstOf(table, u).value in table && Written(FirstOf(table, u).value) <= u
    ensures FirstOf(table, u).None? ==> forall k :: 0 <= k < |table| ==> !(Written(table[k]) <= u)
  {
    if table != [] && !(Written(table[0]) <= u) {
      FirstOfMember(table[1..], u);
      assert forall k :: 1 <= k < |table| ==> table[k] == table[1..][k - 1];
    }
  }

  lemma {:induction false} FirstOfSnoc(table: seq<Entity>, e: Entity, u: string)
    ensures FirstOf(table + [e], u)
         == if FirstOf(table, u).Some? then FirstOf(table, u) else if Written(e) <= u then Some(e) else None
  {
    if table == [] {
      assert table + [e] == [e] && [e][1..] == [];
    } else {
      assert (table + [e])[0] == table[0] && (table + [e])[1..] == table[1..] + [e];
      FirstOfSnoc(table[1..], e, u);
    }
  }

  lemma DecodeStep(table: seq<Entity>, u: string)
    requires u != []
    ensures FirstOf(table, u).Some? ==>
              var e := FirstOf(table, u).value;
              |Written(e)| <= |u| && Sub(Any(table), u) == [e.glyph] + Sub(Any(table), u[|Written(e)|..])
    ensures FirstOf(table, u).None? ==> Sub(Any(table), u) == [u[0]] + Sub(Any(table), u[1..])
  {
    FirstOfMember(table, u);
  }

  lemma {:induction false} EntitiesStartAmp(table: seq<Entity>, u: string)
    ensures FirstOf(table, u).Some? ==> u != [] && u[0] == '&'
  {
    if table != [] {
      EntitiesStartAmp(table[1..], u);
      assert Written(table[0])[0] == '&';
    }
  }

  lemma PlainStep(table: seq<Entity>, c: char, rest: string)
    requires c != '&'
    ensures Sub(Any(table), [c] + rest) == [c] + Sub(Any(table), rest)
  {
    var u := [c] + rest;
    EntitiesStartAmp(table, u);
    DecodeStep(table, u);
    assert u[1..] == rest;
  }

  /** Text without an ampersand is copied. */
  lemma {:induction false} PlainCopied(table: seq<Entity>, w: string, rest: string)
    requires !Has(w, '&')
    ensures Sub(Any(table), w + rest) == w + Sub(Any(table), rest)
  {
    if w == [] {
      assert w + rest == rest;
    } else {
      HasTail(w, '&');
      PlainCopied(table, w[1..], rest);
      PlainStep(table, w[0], w[1..] + rest);
      ConsAppend(w, rest);
      ConsAppend(w, Sub(Any(table), rest));
    }
  }

  lemma ConsAppend(w: string, rest: string)
    requires w != []
    ensures [w[0]] + (w[1..] + rest) == w + rest
  {}

  lemma HasTail(w: string, c: char)
    requires w != [] && !Has(w, c)
    ensures !Has(w[1..], c) && w[0] != c
  {
    assert forall i :: 0 <= i < |w[1..]| ==> w[1..][i] == w[i + 1];
  }

  /** Decoded text that begins with untouched characters comes from text that begins with them. */
  lemma {:induction false} PrefixComesThrough(table: seq<Entity>, w: string, u: string)
    requires forall k :: 0 <= k < |table| ==> !Has(w, table[k].glyph)
    requires w <= Sub(Any(table), u)
    ensures w <= u
  {
    if w != [] {
      var t := Sub(Any(table), u);
      assert u != [];
      FirstOfMember(table, u);
      DecodeStep(table, u);
      assert t[0] == w[0] && Has(w, w[0]);
      assert FirstOf(table, u).None?;
      forall k | 0 <= k < |table| ensures !Has(w[1..], table[k].glyph) {
        HasTail(w, table[k].glyph);
      }
      assert w[1..] <= t[1..];
      assert t[1..] == Sub(Any(table), u[1..]);
      PrefixComesThrough(table, w[1..], u[1..]);
      assert w == [w[0]] + w[1..] && u == [u[0]] + u[1..];
    }
  }

  lemma OneStep(e: Entity, c: char, rest: string)
    requires !(Written(e) <= [c] + rest)
    ensures Sub(One(e), [c] + rest) == [c] + Sub(One(e), rest)
  {
    assert ([c] + rest)[1..] == rest;
  }

  lemma OneHit(e: Entity, rest: string)
    ensures Sub(One(e), Written(e) + rest) == [e.glyph] + Sub(One(e), rest)
  {
    var u := Written(e) + rest;
    assert u[|Written(e)|..] == rest;
  }

  lemma WrittenCons(e: Entity, u: string)
    requires u != []
    ensures Written(e) <= u <==> u[0] == '&' && e.name <= u[1..]
  {
    assert u == [u[0]] + u[1..];
    assert Written(e)[1..] == e.name;
    if Written(e) <= u {
      assert Written(e)[0] == u[0];
      assert u[..|Written(e)|][1..] == u[1..][..|e.name|];
    }
  }

  /** Decoding with a table and then one more entity is decoding with both at once. */
  lemma {:induction false} OneMore(table: seq<Entity>, e: Entity, u: string)
    requires Apart(table, e) && !Has(e.name, '&')
    ensures Sub(One(e), Sub(Any(table), u)) == Sub(Any(table + [e]), u)
    decreases |u|
  {
    if u != [] {
      FirstOfMember(table, u);
      FirstOfSnoc(table, e, u);
      DecodeStep(table, u);
      DecodeStep(table + [e], u);
      if FirstOf(table, u).Some? {
        var d := FirstOf(table, u).value;
        OneMore(table, e, u[|Written(d)|..]);
        DecodedIsPlain(table, e, d, Sub(Any(table), u[|Written(d)|..]));
      } else if Written(e) <= u {
        HitComesThrough(table, e, u);
        OneMore(table, e, u[|Written(e)|..]);
        OneHit(e, Sub(Any(table), u[|Written(e)|..]));
      } else {
        MissComesThrough(table, e, u);
        OneMore(table, e, u[1..]);
        OneStep(e, u[0], Sub(Any(table), u[1..]));
      }
    }
  }

  lemma DecodedIsPlain(table: seq<Entity>, e: Entity, d: Entity, rest: string)
    requires Apart(table, e) && d in table
    ensures Sub(One(e), [d.glyph] + rest) == [d.glyph] + Sub(One(e), rest)
  {
    WrittenCons(e, [d.glyph] + rest);
    OneStep(e, d.glyph, rest);
  }

  lemma WrittenThen(e: Entity, u: string)
    requires Written(e) <= u
    ensures u != [] && u[0] == '&' && u[1..] == e.name + u[|Written(e)|..]
    ensures forall t: string :: ['&'] + (e.name + t) == Written(e) + t
  {
    var rest := u[|Written(e)|..];
    assert u == Written(e) + rest;
    assert u[0] == Written(e)[0];
  }

  lemma HitComesThrough(table: seq<Entity>, e: Entity, u: string)
    requires Written(e) <= u && FirstOf(table, u).None? && !Has(e.name, '&')
    ensures Sub(Any(table), u) == Written(e) + Sub(Any(table), u[|Written(e)|..])
  {
    var rest := u[|Written(e)|..];
    WrittenThen(e, u);
    DecodeStep(table, u);
    PlainCopied(table, e.name, rest);
  }

  lemma MissComesThrough(table: seq<Entity>, e: Entity, u: string)
    requires u != [] && !(Written(e) <= u) && FirstOf(table, u).None? && Apart(table, e)
    ensures !(Written(e) <= [u[0]] + Sub(Any(table), u[1..]))
  {
    var t := [u[0]] + Sub(Any(table), u[1..]);
    WrittenCons(e, u);
    WrittenCons(e, t);
    assert t[1..] == Sub(Any(table), u[1..]);
    if e.name <= t[1..] {
      PrefixComesThrough(table, e.name, u[1..]);
    }
  }

  lemma {:induction false} NothingDecoded(u: string)
    ensures Sub(Any([]), u) == u
  {
    if u != [] {
      NothingDecoded(u[1..]);
    }
  }

  predicate NameChar(c: char) {
    'a' <= c <= 'z' || '0' <= c <= '9' || c == '#' || c == ';'
  }

  /** A name in the entity alphabet, for a character outside it. */
  predicate WellNamed(e: Entity) {
    && e.name != [] && !NameChar(e.glyph)
    && forall i :: 0 <= i < |e.name| ==> NameChar(e.name[i])
  }

  lemma WellSpelled(e: Entity)
    requires e.name != [] && !NameChar(e.glyph) && AllNameChars(e.name)
    ensures WellNamed(e)
  {
    NamesSpelled(e.name);
  }

  lemma FirstThreeAreWellNamed()
    ensures WellNamed(LT) && WellNamed(GT) && WellNamed(QUOT)
  {
    WellSpelled(LT);
    WellSpelled(GT);
    WellSpelled(QUOT);
  }

  lemma LastThreeAreWellNamed()
    ensures WellNamed(APOS) && WellNamed(NBSP) && WellNamed(AMP)
  {
    WellSpelled(APOS);
    WellSpelled(NBSP);
    WellSpelled(AMP);
  }

  predicate AllNameChars(w: string) {
    w == [] || (NameChar(w[0]) && AllNameChars(w[1..]))
  }

  lemma {:induction false} NamesSpelled(w: string)
    ensures AllNameChars(w) <==> forall i :: 0 <= i < |w| ==> NameChar(w[i])
  {
    if w != [] {
      NamesSpelled(w[1..]);
      assert forall i :: 0 <= i < |w[1..]| ==> w[1..][i] == w[i + 1];
      assert forall i :: 1 <= i < |w| ==> w[i] == w[1..][i - 1];
    }
  }

  /** Distinct first letters, and an entity for the ampersand, if any, last. */
  predicate Orderly(table: seq<Entity>) {
    && (forall k :: 0 <= k < |table| ==> WellNamed(table[k]))
    && (forall j, k :: 0 <= j < k < |table| ==> table[j].glyph != '&' && table[j].name[0] != table[k].name[0])
  }

  lemma OrderlyApart(table: seq<Entity>)
    requires table != [] && Orderly(table)
    ensures Orderly(table[..|table| - 1])
    ensures Apart(table[..|table| - 1], table[|table| - 1]) && !Has(table[|table| - 1].name, '&')
  {
    var front, e := table[..|table| - 1], table[|table| - 1];
    forall k | 0 <= k < |front| ensures !(Written(front[k]) <= Written(e)) && !(Written(e) <= Written(front[k])) {
      assert Written(front[k])[1] == front[k].name[0] && Written(e)[1] == e.name[0];
    }
  }

  /** Chained replacements with an orderly table are one left-to-right pass, on every input. */
  lemma {:induction false} ChainIsSinglePass(table: seq<Entity>, s: string)
    requires Orderly(table)
    ensures DecodeChain(table, s) == Sub(Any(table), s)
  {
    if table == [] {
      NothingDecoded(s);
    } else {
      var front, e := table[..|table| - 1], table[|table| - 1];
      assert table == front + [e];
      OrderlyApart(table);
      ChainIsSinglePass(front, s);
      OneMore(front, e, s);
    }
  }

  lemma SixAreOrderly()
    ensures Orderly(ENTITIES)
  {
    FirstThreeAreWellNamed();
    LastThreeAreWellNamed();
    assert LT.name[0] == 'l' && GT.name[0] == 'g' && QUOT.name[0] == 'q' && APOS.name[0] == '#' && NBSP.name[0] == 'n'
           && AMP.name[0] == 'a';
  }

  /** The six ordered replacements are one left-to-right pass, on every input. */
  lemma OrderedIsSinglePass(s: string)
    ensures DecodeInTurn(s) == DecodeAtOnce(s)
  {
    SixAreOrderly();
    ChainIsSinglePass(ENTITIES, s);
  }

  // ---------------------------------------------------------------------------------------
  // Escaping
  // ---------------------------------------------------------------------------------------

  function EscapeChar(c: char): string {
    if c == '<' then Written(LT)
    else if c == '>' then Written(GT)
    else if c == '\"' then Written(QUOT)
    else if c == '\'' then Written(APOS)
    else if c == '&' then Written(AMP)
    else [c]
  }

  function Escape(s: string): string {
    if s == [] then [] else EscapeChar(s[0]) + Escape(s[1..])
  }

  /** In an orderly table an entity is found where it is written. */
  lemma EntityFound(table: seq<Entity>, k: nat, rest: string)
    requires Orderly(table) && k < |table|
    ensures Sub(Any(table), Written(table[k]) + rest) == [table[k].glyph] + Sub(Any(table), rest)
  {
    var u := Written(table[k]) + rest;
    FirstOfMember(table, u);
    DecodeStep(table, u);
    assert u[..|Written(table[k])|] == Written(table[k]);
    assert FirstOf(table, u).Some?;
    var e := FirstOf(table, u).value;
    var j :| 0 <= j < |table| && table[j] == e;
    assert u[1] == Written(e)[1] == e.name[0] && u[1] == Written(table[k])[1] == table[k].name[0];
    assert u[|Written(table[k])|..] == rest;
  }

  lemma EscapedCharReads(c: char, rest: string)
    ensures Sub(Any(ENTITIES), EscapeChar(c) + rest) == [c] + Sub(Any(ENTITIES), rest)
  {
    SixAreOrderly();
    if c == '<' {
      EntityFound(ENTITIES, 0, rest);
    } else if c == '>' {
      EntityFound(ENTITIES, 1, rest);
    } else if c == '\"' {
      EntityFound(ENTITIES, 2, rest);
    } else if c == '\'' {
      EntityFound(ENTITIES, 3, rest);
    } else if c == '&' {
      EntityFound(ENTITIES, 5, rest);
    } else {
      PlainStep(ENTITIES, c, rest);
    }
  }

  /** Decoding undoes escaping. */
  lemma {:induction false} DecodeUndoesEscape(s: string)
    ensures DecodeInTurn(Escape(s)) == s
  {
    OrderedIsSinglePass(Escape(s));
    if s != [] {
      EscapedCharReads(s[0], Escape(s[1..]));
      OrderedIsSinglePass(Escape(s[1..]));
      DecodeUndoesEscape(s[1..]);
    }
  }

  // ---------------------------------------------------------------------------------------
  // Text without markup
  // ---------------------------------------------------------------------------------------

  ghost predicate NeedsAngle(p: Pattern) {
    forall u :: Fires(p, u) ==> u[0] == '<'
  }

  lemma NoAngleNoMatch(p: Pattern, s: string)
    requires NeedsAngle(p) && !Has(s, '<')
    ensures NoMatch(p, s) && Sub(p, s) == s
  {
    forall i | 0 <= i < |s| ensures !Fires(p, s[i..]) {
      assert s[i..][0] == s[i];
    }
    SubIdentity(p, s);
  }

  lemma AnyCaseAngle(u: string, lower: string)
    requires lower != [] && lower[0] == '<' && StartsWithAnyCase(u, lower)
    ensures u != [] && u[0] == '<'
  {
    assert ToLower(u[..|lower|])[0] == LowerChar(u[0]);
  }

  lemma BlockNeedsAngle(u: string, name: string)
    requires Block(u, name).Some?
    ensures u != [] && u[0] == '<'
  {
    AnyCaseAngle(u, "<" + name);
  }

  lemma LiteralNeedsAngle(u: string, lower: string, text: string)
    requires lower != [] && lower[0] == '<' && Literal(u, lower, text).Some?
    ensures u != [] && u[0] == '<'
  {
    AnyCaseAngle(u, lower);
  }

  lemma PatternsNeedAngle()
    ensures NeedsAngle(ScriptBlock) && NeedsAngle(StyleBlock) && NeedsAngle(CompleteTag) && NeedsAngle(IncompleteTag)
    ensures NeedsAngle(LineBreak) && NeedsAngle(ParagraphEnd) && NeedsAngle(DivEnd) && NeedsAngle(ItemEnd)
  {
    forall u | Fires(ScriptBlock, u) ensures u[0] == '<' {
      BlockNeedsAngle(u, "script");
    }
    forall u | Fires(StyleBlock, u) ensures u[0] == '<' {
      BlockNeedsAngle(u, "style");
    }
    forall u | Fires(LineBreak, u) ensures u[0] == '<' {
      AnyCaseAngle(u, "<br");
    }
    forall u | Fires(ParagraphEnd, u) ensures u[0] == '<' {
      LiteralNeedsAngle(u, "</p>", "\n\n");
    }
    forall u | Fires(DivEnd, u) ensures u[0] == '<' {
      LiteralNeedsAngle(u, "</div>", "\n");
    }
    forall u | Fires(ItemEnd, u) ensures u[0] == '<' {
      LiteralNeedsAngle(u, "</li>", "\n");
    }
  }

  /** Text without `<` passes every stripping stage untouched. */
  lemma NoAngleNoStripping(s: string)
    requires !Has(s, '<')
    ensures StripMarkup(s) == s
  {
    PatternsNeedAngle();
    PatternsDelete();
    NoAngleNoMatch(LineBreak, s);
    NoAngleNoMatch(ParagraphEnd, s);
    NoAngleNoMatch(DivEnd, s);
    NoAngleNoMatch(ItemEnd, s);
    assert BlockBreaks(s) == s;
    NoAngleNoMatch(ScriptBlock, s);
    NoAngleNoMatch(StyleBlock, s);
    NoAngleNoMatch(CompleteTag, s);
    NoAngleNoMatch(IncompleteTag, s);
    SettleIsStable(ScriptBlock, StyleBlock, s);
    SettleIsStable(CompleteTag, IncompleteTag, s);
  }

  lemma EscapeCharHasNoAngle(c: char)
    ensures !Has(EscapeChar(c), '<')
  {}

  lemma HasAppend(a: string, b: string, c: char)
    requires !Has(a, c) && !Has(b, c)
    ensures !Has(a + b, c)
  {}

  lemma {:induction false} EscapeHasNoAngle(s: string)
    ensures !Has(Escape(s), '<')
  {
    if s != [] {
      EscapeCharHasNoAngle(s[0]);
      EscapeHasNoAngle(s[1..]);
      HasAppend(EscapeChar(s[0]), Escape(s[1..]), '<');
    }
  }

  /** Escaped text comes back as it was written, up to long runs of blank lines and outer white space. */
  lemma EscapedTextReadsBack(s: string)
    ensures PlainTextOf(Escape(s)) == Trim(Collapse(s))
  {
    EscapeHasNoAngle(s);
    NoAngleNoStripping(Escape(s));
    DecodeUndoesEscape(s);
  }

  // ---------------------------------------------------------------------------------------
  // Blank lines
  // ---------------------------------------------------------------------------------------

  predicate NoTriple(s: string) {
    forall i :: 0 <= i < |s| - 2 ==> !(s[i] == '\n' && s[i + 1] == '\n' && s[i + 2] == '\n')
  }

  lemma {:induction false} NewlineRunIs(u: string, n: nat)
    requires n <= |u| && (forall i :: 0 <= i < n ==> u[i] == '\n') && (n < |u| ==> u[n] != '\n')
    ensures NewlineRun(u) == n
  {
    if n > 0 {
      NewlineRunIs(u[1..], n - 1);
    }
  }

  /** Collapsing begins as the text does: with the same run of line breaks, cut to two. */
  lemma {:induction false} CollapseRun(s: string)
    ensures NewlineRun(Collapse(s)) == Min(NewlineRun(s), 2)
    decreases |s|
  {
    var n := NewlineRun(s);
    if s != [] {
      if n >= 3 {
        var rest := s[n..];
        CollapseRun(rest);
        assert NewlineRun(rest) == 0;
        assert Collapse(s) == "\n\n" + Collapse(rest);
        NewlineRunIs("\n\n" + Collapse(rest), 2);
      } else {
        CollapseRun(s[1..]);
        assert Collapse(s) == [s[0]] + Collapse(s[1..]);
        assert Collapse(s)[1..] == Collapse(s[1..]);
      }
    }
  }

  lemma NoTripleCons(c: char, s: string)
    requires NoTriple(s) && !(c == '\n' && NewlineRun(s) >= 2)
    ensures NoTriple([c] + s)
  {
    var t := [c] + s;
    forall i | 0 <= i < |t| - 2 ensures !(t[i] == '\n' && t[i + 1] == '\n' && t[i + 2] == '\n') {
      if i > 0 {
        assert t[i] == s[i - 1] && t[i + 1] == s[i] && t[i + 2] == s[i + 1];
      } else if |s| >= 2 && s[0] == '\n' && s[1] == '\n' {
        assert s[1..][0] == s[1];
        assert NewlineRun(s[1..]) >= 1;
      }
    }
  }

  /** The collapsed text has no three line breaks in a row. */
  lemma {:induction false} CollapseLeavesNoTriple(s: string)
    ensures NoTriple(Collapse(s))
    decreases |s|
  {
    var n := NewlineRun(s);
    if s != [] {
      if n >= 3 {
        var rest := s[n..];
        CollapseLeavesNoTriple(rest);
        CollapseRun(rest);
        NoTripleCons('\n', Collapse(rest));
        assert NewlineRun(['\n'] + Collapse(rest)) == 1 by {
          NewlineRunIs(['\n'] + Collapse(rest), 1);
        }
        NoTripleCons('\n', ['\n'] + Collapse(rest));
        assert ['\n'] + (['\n'] + Collapse(rest)) == "\n\n" + Collapse(rest);
      } else {
        CollapseLeavesNoTriple(s[1..]);
        CollapseRun(s[1..]);
        NoTripleCons(s[0], Collapse(s[1..]));
      }
    }
  }
}
