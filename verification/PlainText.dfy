/** Turning a mail's HTML into text: passes of one global replacement each, two of them repeated until stable. */
module PlainText {
  import opened Common
  import opened Text

  // ---------------------------------------------------------------------------------------
  // Global replacement
  // ---------------------------------------------------------------------------------------

  /** What a pattern finds at the front of a string: how much it takes, and what stands there instead. */
  datatype Match = Match(len: nat, text: string)

  type Pattern = string -> Option<Match>

  predicate Fires(p: Pattern, u: string) {
    u != [] && p(u).Some? && 1 <= p(u).value.len <= |u|
  }

  /** `replace(/…/g, …)`: leftmost matches, left to right, none inside another. */
  function Sub(p: Pattern, s: string): string
    decreases |s|
  {
    if s == [] then []
    else if Fires(p, s) then p(s).value.text + Sub(p, s[p(s).value.len..])
    else [s[0]] + Sub(p, s[1..])
  }

  predicate NoMatch(p: Pattern, s: string) {
    forall i :: 0 <= i < |s| ==> !Fires(p, s[i..])
  }

  ghost predicate Deletes(p: Pattern) {
    forall u :: p(u).Some? ==> p(u).value.text == ""
  }

  lemma NoMatchCons(p: Pattern, s: string)
    requires s != []
    ensures NoMatch(p, s) <==> !Fires(p, s) && NoMatch(p, s[1..])
  {
    assert s[0..] == s;
    assert forall i :: 0 <= i < |s[1..]| ==> s[1..][i..] == s[i + 1..];
    if !Fires(p, s) && NoMatch(p, s[1..]) {
      forall i | 0 <= i < |s| ensures !Fires(p, s[i..]) {
        if i > 0 {
          assert s[1..][i - 1..] == s[i..];
        }
      }
    }
    if NoMatch(p, s) {
      forall i | 0 <= i < |s[1..]| ensures !Fires(p, s[1..][i..]) {
        assert !Fires(p, s[i + 1..]);
      }
    }
  }

  lemma {:induction false} SubIdentity(p: Pattern, s: string)
    requires NoMatch(p, s)
    ensures Sub(p, s) == s
  {
    if s != [] {
      NoMatchCons(p, s);
      SubIdentity(p, s[1..]);
    }
  }

  /** A deleting pass changes the text exactly when it shortens it, exactly when something matches. */
  lemma {:induction false} SubShrinks(p: Pattern, s: string)
    requires Deletes(p)
    ensures |Sub(p, s)| <= |s|
    ensures |Sub(p, s)| == |s| <==> NoMatch(p, s)
    ensures NoMatch(p, s) ==> Sub(p, s) == s
    decreases |s|
  {
    if s != [] {
      NoMatchCons(p, s);
      if Fires(p, s) {
        SubShrinks(p, s[p(s).value.len..]);
      } else {
        SubShrinks(p, s[1..]);
      }
    }
  }

  /** `r` is what is left of `s` after striking out characters. */
  ghost predicate Subsequence(r: string, s: string)
    decreases |s|
  {
    r == [] || (s != [] && ((r[0] == s[0] && Subsequence(r[1..], s[1..])) || Subsequence(r, s[1..])))
  }

  lemma {:induction false} SubsequenceDrop(r: string, s: string, n: nat)
    requires n <= |s| && Subsequence(r, s[n..])
    ensures Subsequence(r, s)
    decreases n
  {
    if n == 0 {
      assert s[0..] == s;
    } else {
      assert s[1..][n - 1..] == s[n..];
      SubsequenceDrop(r, s[1..], n - 1);
    }
  }

  lemma {:induction false} SubsequenceTrans(a: string, b: string, c: string)
    requires Subsequence(a, b) && Subsequence(b, c)
    ensures Subsequence(a, c)
    decreases |c|, |b|
  {
    if a != [] {
      if b[0] == c[0] && Subsequence(b[1..], c[1..]) {
        if a[0] == b[0] && Subsequence(a[1..], b[1..]) {
          SubsequenceTrans(a[1..], b[1..], c[1..]);
        } else {
          SubsequenceTrans(a, b[1..], c[1..]);
        }
      } else {
        SubsequenceTrans(a, b, c[1..]);
      }
    }
  }

  lemma {:induction false} SubsequenceRefl(s: string)
    ensures Subsequence(s, s)
  {
    if s != [] {
      SubsequenceRefl(s[1..]);
    }
  }

  lemma {:induction false} SubOnlyStrikes(p: Pattern, s: string)
    requires Deletes(p)
    ensures Subsequence(Sub(p, s), s)
    decreases |s|
  {
    if s != [] {
      if Fires(p, s) {
        SubOnlyStrikes(p, s[p(s).value.len..]);
        assert Sub(p, s) == Sub(p, s[p(s).value.len..]);
        SubsequenceDrop(Sub(p, s), s, p(s).value.len);
      } else {
        SubOnlyStrikes(p, s[1..]);
      }
    }
  }

  // ---------------------------------------------------------------------------------------
  // Two deleting passes, repeated until nothing changes
  // ---------------------------------------------------------------------------------------

  function Settle(p: Pattern, q: Pattern, s: string): string
    decreases |s|
  {
    var t := Sub(q, Sub(p, s));
    if |t| < |s| then Settle(p, q, t) else s
  }

  lemma PassShrinks(p: Pattern, q: Pattern, s: string)
    requires Deletes(p) && Deletes(q)
    ensures var t := Sub(q, Sub(p, s));
            && |t| <= |s| && (|t| == |s| <==> t == s) && (t == s <==> NoMatch(p, s) && NoMatch(q, s))
            && Subsequence(t, s)
  {
    SubShrinks(p, s);
    SubShrinks(q, Sub(p, s));
    SubOnlyStrikes(p, s);
    SubOnlyStrikes(q, Sub(p, s));
    SubsequenceTrans(Sub(q, Sub(p, s)), Sub(p, s), s);
  }

  method RunUntilStable(p: Pattern, q: Pattern, s: string) returns (text: string)
    requires Deletes(p) && Deletes(q)
    ensures text == Settle(p, q, s)
  {
    text := s;
    var prev := "";
    while prev != text
      invariant Settle(p, q, text) == Settle(p, q, s)
      invariant prev == text ==> text == Settle(p, q, text)
      decreases |text|, if prev == text then 0 else 1
    {
      prev := text;
      PassShrinks(p, q, text);
      text := Sub(p, text);
      text := Sub(q, text);
    }
  }

  /** The loop ends with a text neither pattern matches anywhere, obtained by striking out alone. */
  lemma {:induction false} SettleIsStable(p: Pattern, q: Pattern, s: string)
    requires Deletes(p) && Deletes(q)
    ensures NoMatch(p, Settle(p, q, s)) && NoMatch(q, Settle(p, q, s))
    ensures Subsequence(Settle(p, q, s), s)
    ensures Settle(p, q, s) == s <==> NoMatch(p, s) && NoMatch(q, s)
    decreases |s|
  {
    PassShrinks(p, q, s);
    var t := Sub(q, Sub(p, s));
    if |t| < |s| {
      SettleIsStable(p, q, t);
      SubsequenceTrans(Settle(p, q, s), t, s);
      SubsequenceShort(Settle(p, q, s), t);
    } else {
      SubsequenceRefl(s);
    }
  }

  lemma {:induction false} SubsequenceShort(r: string, s: string)
    requires Subsequence(r, s)
    ensures |r| <= |s|
    decreases |s|
  {
    if r != [] {
      if r[0] == s[0] && Subsequence(r[1..], s[1..]) {
        SubsequenceShort(r[1..], s[1..]);
      } else {
        SubsequenceShort(r, s[1..]);
      }
    }
  }

  // ---------------------------------------------------------------------------------------
  // The patterns
  // ---------------------------------------------------------------------------------------

  /** How many characters stand before the first `c`. */
  function UpTo(s: string, c: char): (n: nat)
    ensures n <= |s|
  {
    if s == [] || s[0] == c then 0 else 1 + UpTo(s[1..], c)
  }

  lemma {:induction false} UpToIs(s: string, c: char, k: nat)
    requires k <= |s| && (forall i :: 0 <= i < k ==> s[i] != c) && (k < |s| ==> s[k] == c)
    ensures UpTo(s, c) == k
  {
    if k > 0 {
      UpToIs(s[1..], c, k - 1);
    }
  }

  lemma {:induction false} UpToFinds(s: string, c: char)
    ensures UpTo(s, c) < |s| ==> s[UpTo(s, c)] == c
  {
    if s != [] && s[0] != c {
      UpToFinds(s[1..], c);
    }
  }

  lemma {:induction false} UpToFirst(s: string, c: char, k: nat)
    requires k < |s| && s[k] == c
    ensures UpTo(s, c) <= k
  {
    if k > 0 && s[0] != c {
      UpToFirst(s[1..], c, k - 1);
    }
  }

  predicate Letter(c: char) {
    'a' <= c <= 'z' || 'A' <= c <= 'Z'
  }

  /** `/<[^>]+>/` */
  function CompleteTag(u: string): Option<Match> {
    if u == [] || u[0] != '<' then None
    else
      var n := UpTo(u[1..], '>');
      if n >= 1 && n + 1 < |u| then Some(Match(n + 2, "")) else None
  }

  const INCOMPLETE_LIMIT := 500

  /** `/<[a-zA-Z][^>]{0,500}/` */
  function IncompleteTag(u: string): Option<Match> {
    if |u| < 2 || u[0] != '<' || !Letter(u[1]) then None
    else Some(Match(2 + Min(UpTo(u[2..], '>'), INCOMPLETE_LIMIT), ""))
  }

  predicate StartsWithAnyCase(u: string, lower: string) {
    |lower| <= |u| && ToLower(u[..|lower|]) == lower
  }

  /** `/word[^>]*>/i` at the front: where it ends. */
  function TagEnd(u: string, word: string): Option<nat> {
    if !StartsWithAnyCase(u, word) then None
    else
      var k := |word| + UpTo(u[|word|..], '>');
      if k < |u| then Some(k + 1) else None
  }

  /** The end of the first `</name…>`. */
  function CloseEnd(u: string, name: string): Option<nat> {
    if u == [] then None
    else if TagEnd(u, "</" + name).Some? then TagEnd(u, "</" + name)
    else
      match CloseEnd(u[1..], name)
      case None => None
      case Some(k) => Some(k + 1)
  }

  /** `/<name[^>]*>[\s\S]*?<\/name[^>]*>/i` */
  function Block(u: string, name: string): Option<Match> {
    match TagEnd(u, "<" + name)
    case None => None
    case Some(open) =>
      match CloseEnd(u[open..], name)
      case None => None
      case Some(k) => Some(Match(open + k, ""))
  }

  function ScriptBlock(u: string): Option<Match> {
    Block(u, "script")
  }

  function StyleBlock(u: string): Option<Match> {
    Block(u, "style")
  }

  function SpaceRun(u: string): (n: nat)
    ensures n <= |u|
  {
    if u != [] && IsSpace(u[0]) then 1 + SpaceRun(u[1..]) else 0
  }

  /** `/<br\s*\/?>/i` */
  function LineBreak(u: string): Option<Match> {
    if !StartsWithAnyCase(u, "<br") then None
    else
      var n := 3 + SpaceRun(u[3..]);
      if n < |u| && u[n] == '>' then Some(Match(n + 1, "\n"))
      else if n + 1 < |u| && u[n] == '/' && u[n + 1] == '>' then Some(Match(n + 2, "\n"))
      else None
  }

  function Literal(u: string, lower: string, text: string): Option<Match> {
    if lower != [] && StartsWithAnyCase(u, lower) then Some(Match(|lower|, text)) else None
  }

  function ParagraphEnd(u: string): Option<Match> {
    Literal(u, "</p>", "\n\n")
  }

  function DivEnd(u: string): Option<Match> {
    Literal(u, "</div>", "\n")
  }

  function ItemEnd(u: string): Option<Match> {
    Literal(u, "</li>", "\n")
  }

  function BlockBreaks(s: string): string {
    Sub(ItemEnd, Sub(DivEnd, Sub(ParagraphEnd, Sub(LineBreak, s))))
  }

  // ---------------------------------------------------------------------------------------
  // Entities
  // ---------------------------------------------------------------------------------------

  datatype Entity = Entity(name: string, glyph: char)

  function Written(e: Entity): string {
    "&" + e.name
  }

  const LT := Entity("lt;", '<')
  const GT := Entity("gt;", '>')
  const QUOT := Entity("quot;", '\"')
  const APOS := Entity("#39;", '\'')
  const NBSP := Entity("nbsp;", ' ')
  const AMP := Entity("amp;", '&')

  function FirstOf(table: seq<Entity>, u: string): Option<Entity> {
    if table == [] then None
    else if Written(table[0]) <= u then Some(table[0])
    else FirstOf(table[1..], u)
  }

  function EntityMatch(e: Entity, u: string): Option<Match> {
    if Written(e) <= u then Some(Match(|Written(e)|, [e.glyph])) else None
  }

  /** One left-to-right pass over all the entities of a table. */
  function TableMatch(table: seq<Entity>, u: string): Option<Match> {
    match FirstOf(table, u)
    case None => None
    case Some(e) => Some(Match(|Written(e)|, [e.glyph]))
  }

  function One(e: Entity): Pattern {
    (u: string) => EntityMatch(e, u)
  }

  function Any(table: seq<Entity>): Pattern {
    (u: string) => TableMatch(table, u)
  }

  const ENTITIES := [LT, GT, QUOT, APOS, NBSP, AMP]

  /** One replacement after another, in table order. */
  function DecodeChain(table: seq<Entity>, s: string): string {
    if table == [] then s
    else Sub(One(table[|table| - 1]), DecodeChain(table[..|table| - 1], s))
  }

  /** The six replacements in the order they are chained. */
  function DecodeInTurn(s: string): string {
    DecodeChain(ENTITIES, s)
  }

  function DecodeAtOnce(s: string): string {
    Sub(Any(ENTITIES), s)
  }

  // ---------------------------------------------------------------------------------------
  // The whole conversion
  // ---------------------------------------------------------------------------------------

  function NewlineRun(u: string): (n: nat)
    ensures n <= |u|
    ensures forall i :: 0 <= i < n ==> u[i] == '\n'
    ensures n < |u| ==> u[n] != '\n'
  {
    if u != [] && u[0] == '\n' then 1 + NewlineRun(u[1..]) else 0
  }

  /** `/\n{3,}/` */
  function ManyNewlines(u: string): Option<Match> {
    if NewlineRun(u) >= 3 then Some(Match(NewlineRun(u), "\n\n")) else None
  }

  function Collapse(s: string): string {
    Sub(ManyNewlines, s)
  }

  function StripMarkup(s: string): string {
    Settle(CompleteTag, IncompleteTag, Settle(ScriptBlock, StyleBlock, BlockBreaks(s)))
  }

  function PlainTextOf(html: string): string {
    Trim(Collapse(DecodeInTurn(StripMarkup(html))))
  }

  method HtmlToPlainText(html: Option<string>) returns (r: string)
    ensures r == if html.None? then "" else PlainTextOf(html.value)
  {
    if html.None? || html.value == "" {
      if html.Some? {
        EmptyStaysEmpty();
      }
      return "";
    }
    PatternsDelete();
    var text := BlockBreaks(html.value);
    text := RunUntilStable(ScriptBlock, StyleBlock, text);
    text := RunUntilStable(CompleteTag, IncompleteTag, text);
    r := Trim(Collapse(DecodeInTurn(text)));
  }

  lemma {:induction false} ChainOfEmpty(table: seq<Entity>)
    ensures DecodeChain(table, "") == ""
  {
    if table != [] {
      ChainOfEmpty(table[..|table| - 1]);
    }
  }

  lemma EmptyStaysEmpty()
    ensures PlainTextOf("") == ""
  {
    ChainOfEmpty(ENTITIES);
    assert BlockBreaks("") == "";
    assert StripMarkup("") == "";
  }

  lemma PatternsDelete()
    ensures Deletes(ScriptBlock) && Deletes(StyleBlock) && Deletes(CompleteTag) && Deletes(IncompleteTag)
  {}
}
