/** What a marked-up text reads as: its own characters, its line breaks, and nothing of its scripts and styles. */
module PlainTextContent {
  import opened Common
  import opened Text
  import opened PlainText
  import opened PlainTextTheorems

  // ---------------------------------------------------------------------------------------
  // Marked-up text
  // ---------------------------------------------------------------------------------------

  /**
   `Chars` is text without `<`; `Tag` is what stands between `<` and `>`; `Raw` is a script or style
   block with what stands in its two tags and between them.
   */
  datatype Piece =
    | Chars(text: string)
    | Tag(inside: string)
    | Raw(script: bool, opener: string, body: string, closer: string)

  function Bracketed(x: string): string {
    "<" + x + ">"
  }

  function Html(p: Piece): string {
    match p
    case Chars(text) => text
    case Tag(x) => Bracketed(x)
    case Raw(_, opener, body, closer) => Bracketed(opener) + (body + Bracketed(closer))
  }

  function HtmlOf(pieces: seq<Piece>): string {
    if pieces == [] then [] else Html(pieces[0]) + HtmlOf(pieces[1..])
  }

  predicate NoAngles(s: string) {
    !Has(s, '<') && !Has(s, '>')
  }

  /** `br`, white space, and perhaps a slash. */
  predicate IsBr(x: string) {
    && |x| >= 2 && ToLower(x[..2]) == "br"
    && (Blank(x[2..]) || (x[|x| - 1] == '/' && |x| > 2 && Blank(x[2..|x| - 1])))
  }

  /** The line breaks a tag stands for. */
  function BreakOf(x: string): string {
    if IsBr(x) || ToLower(x) == "/div" || ToLower(x) == "/li" then "\n"
    else if ToLower(x) == "/p" then "\n\n"
    else ""
  }

  function NameOf(script: bool): string {
    if script then "script" else "style"
  }

  /** No place in `s` goes on, in any letter case, as `word`. */
  predicate Lacks(s: string, word: string) {
    s == [] || (!StartsWithAnyCase(s, word) && Lacks(s[1..], word))
  }

  predicate WellMade(p: Piece) {
    match p
    case Chars(text) => !Has(text, '<')
    case Tag(x) => x != "" && NoAngles(x) && !StartsWithAnyCase(x, "script") && !StartsWithAnyCase(x, "style")
    case Raw(script, opener, body, closer) =>
      && NoAngles(opener) && StartsWithAnyCase(opener, NameOf(script))
      && NoAngles(closer) && StartsWithAnyCase(closer, "/" + NameOf(script))
      && Lacks(body, "</" + NameOf(script)) && (!script ==> Lacks(body, "<script"))
  }

  predicate AllWellMade(pieces: seq<Piece>) {
    forall i :: 0 <= i < |pieces| ==> WellMade(pieces[i])
  }

  /** What a reader sees of one piece, and of all. */
  function TextIn(p: Piece): string {
    match p
    case Chars(text) => text
    case Tag(x) => BreakOf(x)
    case Raw(_, _, _, _) => ""
  }

  function TextOf(pieces: seq<Piece>): string {
    if pieces == [] then [] else TextIn(pieces[0]) + TextOf(pieces[1..])
  }

  lemma WellMadeTail(pieces: seq<Piece>)
    requires AllWellMade(pieces) && pieces != []
    ensures WellMade(pieces[0]) && AllWellMade(pieces[1..])
  {
    assert forall i :: 0 <= i < |pieces[1..]| ==> pieces[1..][i] == pieces[i + 1];
  }

  // ---------------------------------------------------------------------------------------
  // One pass, one piece
  // ---------------------------------------------------------------------------------------

  /** Characters other than `<` are copied by every pass. */
  lemma {:induction false} SkipChars(p: Pattern, t: string, rest: string)
    requires NeedsAngle(p) && !Has(t, '<')
    ensures Sub(p, t + rest) == t + Sub(p, rest)
  {
    if t == [] {
      assert t + rest == rest;
    } else {
      HasTail(t, '<');
      var u := t + rest;
      assert u[0] == t[0] && u[1..] == t[1..] + rest;
      SkipChars(p, t[1..], rest);
      assert Sub(p, u) == [u[0]] + Sub(p, u[1..]);
      ConsAppend(t, Sub(p, rest));
    }
  }

  lemma SkipOne(p: Pattern, c: char, rest: string)
    requires !Fires(p, [c] + rest)
    ensures Sub(p, [c] + rest) == [c] + Sub(p, rest)
  {
    assert ([c] + rest)[1..] == rest;
  }

  /** A tag a pass does not match is copied. */
  lemma SkipTag(p: Pattern, x: string, rest: string)
    requires NeedsAngle(p) && !Has(x, '<') && !Fires(p, "<" + x + ">" + rest)
    ensures Sub(p, "<" + x + ">" + rest) == "<" + x + ">" + Sub(p, rest)
  {
    assert "<" + x + ">" + rest == ['<'] + ((x + ">") + rest);
    SkipOne(p, '<', (x + ">") + rest);
    assert !Has(x + ">", '<');
    SkipChars(p, x + ">", rest);
    assert ['<'] + ((x + ">") + Sub(p, rest)) == "<" + x + ">" + Sub(p, rest);
  }

  /** A match that takes exactly `w` is replaced. */
  lemma TakeMatch(p: Pattern, w: string, rest: string, text: string)
    requires w != [] && p(w + rest) == Some(Match(|w|, text))
    ensures Sub(p, w + rest) == text + Sub(p, rest)
  {
    assert (w + rest)[|w|..] == rest;
  }

  // ---------------------------------------------------------------------------------------
  // Letter case
  // ---------------------------------------------------------------------------------------

  lemma LowerAt(s: string, i: nat)
    requires i < |s|
    ensures ToLower(s)[i] == LowerChar(s[i])
  {}

  /** Whether a string begins with a word is seen on its first characters. */
  lemma AnyCasePrefix(w: string, rest: string, word: string)
    requires |word| <= |w|
    ensures StartsWithAnyCase(w + rest, word) <==> StartsWithAnyCase(w, word)
  {
    assert (w + rest)[..|word|] == w[..|word|];
  }

  /** A character the word does not have at that place rules it out. */
  lemma AnyCaseMiss(u: string, word: string, i: nat)
    requires i < |u| && i < |word| && LowerChar(u[i]) != word[i]
    ensures !StartsWithAnyCase(u, word)
  {
    if StartsWithAnyCase(u, word) {
      LowerAt(u[..|word|], i);
    }
  }

  lemma AnyCaseCons(c: char, u: string, d: char, word: string)
    ensures StartsWithAnyCase([c] + u, [d] + word) <==> LowerChar(c) == d && StartsWithAnyCase(u, word)
  {
    if |word| <= |u| {
      assert ([c] + u)[..|word| + 1] == [c] + u[..|word|];
      assert ToLower([c] + u[..|word|]) == [LowerChar(c)] + ToLower(u[..|word|]);
      assert ([LowerChar(c)] + ToLower(u[..|word|]))[1..] == ToLower(u[..|word|]);
      assert ([d] + word)[1..] == word;
    }
  }

  /** `<x>` begins with `<word`, for a word of letters, exactly if `x` begins with the word. */
  lemma {:induction false} TagBegins(x: string, rest: string, word: string)
    requires forall i :: 0 <= i < |word| ==> word[i] != '>'
    ensures StartsWithAnyCase(x + ">" + rest, word) <==> StartsWithAnyCase(x, word)
  {
    var u := x + ">" + rest;
    if |word| <= |x| {
      assert u == x + (">" + rest);
      AnyCasePrefix(x, ">" + rest, word);
    } else {
      assert u[|x|] == '>';
      AnyCaseMiss(u, word, |x|);
    }
  }

  // ---------------------------------------------------------------------------------------
  // Line breaks
  // ---------------------------------------------------------------------------------------

  lemma UpToSkips(t: string, rest: string, c: char)
    requires c !in t
    ensures UpTo(t + ([c] + rest), c) == |t|
  {
    var s := t + ([c] + rest);
    assert s[|t|] == c;
    assert forall i :: 0 <= i < |t| ==> s[i] == t[i];
    UpToIs(s, c, |t|);
  }

  lemma {:induction false} SpaceRunIs(pad: string, rest: string)
    requires Blank(pad) && (rest == [] || !IsSpace(rest[0]))
    ensures SpaceRun(pad + rest) == |pad|
  {
    if pad == [] {
      assert pad + rest == rest;
    } else {
      assert (pad + rest)[0] == pad[0] && (pad + rest)[1..] == pad[1..] + rest;
      SpaceRunIs(pad[1..], rest);
    }
  }

  lemma {:induction false} SpaceRunBlank(u: string)
    ensures Blank(u[..SpaceRun(u)]) && (SpaceRun(u) < |u| ==> !IsSpace(u[SpaceRun(u)]))
  {
    if u != [] && IsSpace(u[0]) {
      SpaceRunBlank(u[1..]);
      var n := SpaceRun(u[1..]);
      assert u[..n + 1] == [u[0]] + u[1..][..n];
    }
  }

  lemma {:induction false} SpaceRunStops(u: string, k: nat)
    requires k < |u| && !IsSpace(u[k])
    ensures SpaceRun(u) <= k
  {
    if k > 0 {
      SpaceRunStops(u[1..], k - 1);
    }
  }

  /** What follows `br` in a tag, up to the closing bracket. */
  lemma BrTail(y: string, rest: string)
    requires NoAngles(y)
    ensures var u := y + (">" + rest);
            var n := SpaceRun(u);
            && ((n < |u| && u[n] == '>') <==> Blank(y))
            && (Blank(y) ==> n == |y|)
            && ((n + 1 < |u| && u[n] == '/' && u[n + 1] == '>') <==>
                y != "" && y[|y| - 1] == '/' && Blank(y[..|y| - 1]))
            && (y != "" && y[|y| - 1] == '/' && Blank(y[..|y| - 1]) ==> n == |y| - 1)
  {
    var u := y + (">" + rest);
    var n := SpaceRun(u);
    SpaceRunBlank(u);
    if Blank(y) {
      SpaceRunIs(y, ">" + rest);
    }
    if n < |u| && u[n] == '>' {
      SpaceRunStops(u, |y|);
      assert u[..n] == y;
    }
    if y != "" && y[|y| - 1] == '/' && Blank(y[..|y| - 1]) {
      assert u == y[..|y| - 1] + (['/'] + (">" + rest));
      SpaceRunIs(y[..|y| - 1], ['/'] + (">" + rest));
    }
    if n + 1 < |u| && u[n] == '/' && u[n + 1] == '>' {
      SpaceRunStops(u, |y|);
      assert u[..n] == y[..|y| - 1];
    }
  }

  lemma BrTag(x: string, rest: string)
    requires NoAngles(x)
    ensures LineBreak("<" + x + ">" + rest) == if IsBr(x) then Some(Match(|x| + 2, "\n")) else None
  {
    var u := "<" + x + ">" + rest;
    assert u == ['<'] + (x + ">" + rest);
    assert "<br" == ['<'] + "br";
    AnyCaseCons('<', x + ">" + rest, '<', "br");
    TagBegins(x, rest, "br");
    if StartsWithAnyCase(x, "br") {
      var y := x[2..];
      assert u[3..] == y + (">" + rest);
      assert !Has(y, '<') && !Has(y, '>') by {
        assert forall i :: 0 <= i < |y| ==> y[i] == x[i + 2];
      }
      BrTail(y, rest);
      var n := SpaceRun(y + (">" + rest));
      assert forall k :: 0 <= k && 3 + k < |u| ==> u[3 + k] == u[3..][k];
      assert |x| > 2 ==> y[|y| - 1] == x[|x| - 1] && y[..|y| - 1] == x[2..|x| - 1];
    }
  }

  /** The closing tags that stand for a break. */
  lemma ClosingTag(x: string, rest: string, word: string, text: string)
    requires NoAngles(x) && word != "" && forall i :: 0 <= i < |word| ==> word[i] != '>'
    ensures Literal("<" + x + ">" + rest, "<" + word + ">", text)
         == if ToLower(x) == word then Some(Match(|x| + 2, text)) else None
  {
    var u, lower := "<" + x + ">" + rest, "<" + word + ">";
    assert u == ['<'] + (x + ">" + rest) && lower == ['<'] + (word + ">");
    AnyCaseCons('<', x + ">" + rest, '<', word + ">");
    if |word| == |x| {
      var t := x + ">" + rest;
      assert t[..|word| + 1] == x + ">";
      assert ToLower(x + ">") == ToLower(x) + ">";
      assert (ToLower(x) + ">")[..|x|] == ToLower(x) && (word + ">")[..|x|] == word;
    } else if |x| < |word| {
      assert (x + ">" + rest)[|x|] == '>' && (word + ">")[|x|] == word[|x|];
      AnyCaseMiss(x + ">" + rest, word + ">", |x|);
    } else {
      assert (x + ">" + rest)[|word|] == x[|word|] && (word + ">")[|word|] == '>';
      AnyCaseMiss(x + ">" + rest, word + ">", |word|);
    }
  }

  datatype Break = Br | P | Div | Li

  function PatternOf(b: Break): Pattern {
    match b
    case Br => LineBreak
    case P => ParagraphEnd
    case Div => DivEnd
    case Li => ItemEnd
  }

  /** The tags a pass replaces, and by what. */
  function Says(b: Break, x: string): Option<string> {
    match b
    case Br => if IsBr(x) then Some("\n") else None
    case P => if ToLower(x) == "/p" then Some("\n\n") else None
    case Div => if ToLower(x) == "/div" then Some("\n") else None
    case Li => if ToLower(x) == "/li" then Some("\n") else None
  }

  lemma BreakMatch(b: Break, x: string, rest: string)
    requires NoAngles(x)
    ensures PatternOf(b)("<" + x + ">" + rest)
         == if Says(b, x).Some? then Some(Match(|x| + 2, Says(b, x).value)) else None
  {
    match b
    case Br => BrTag(x, rest);
    case P => ClosingTag(x, rest, "/p", "\n\n"); assert "<" + "/p" + ">" == "</p>";
    case Div => ClosingTag(x, rest, "/div", "\n"); assert "<" + "/div" + ">" == "</div>";
    case Li => ClosingTag(x, rest, "/li", "\n"); assert "<" + "/li" + ">" == "</li>";
  }

  lemma BreakNeedsAngle(b: Break)
    ensures NeedsAngle(PatternOf(b))
  {
    PatternsNeedAngle();
  }

  lemma BreakTag(b: Break, x: string, rest: string)
    requires NoAngles(x)
    ensures Sub(PatternOf(b), "<" + x + ">" + rest)
         == (if Says(b, x).Some? then Says(b, x).value else "<" + x + ">") + Sub(PatternOf(b), rest)
  {
    BreakMatch(b, x, rest);
    BreakNeedsAngle(b);
    if Says(b, x).Some? {
      TakeMatch(PatternOf(b), "<" + x + ">", rest, Says(b, x).value);
    } else {
      SkipTag(PatternOf(b), x, rest);
    }
  }

  // ---------------------------------------------------------------------------------------
  // The inside of a block
  // ---------------------------------------------------------------------------------------

  /** A word with `<` only in front is not finished by text that begins with `<`. */
  lemma WordStops(u: string, rest: string, word: string)
    requires u != [] && rest != [] && rest[0] == '<' && forall i :: 1 <= i < |word| ==> word[i] != '<'
    ensures StartsWithAnyCase(u + rest, word) <==> StartsWithAnyCase(u, word)
  {
    if |word| <= |u| {
      AnyCasePrefix(u, rest, word);
    } else {
      assert (u + rest)[|u|] == '<';
      AnyCaseMiss(u + rest, word, |u|);
    }
  }

  lemma LineBreakStops(u: string, rest: string)
    requires u != [] && rest != [] && rest[0] == '<'
    ensures LineBreak(u + rest) == LineBreak(u)
  {
    WordStops(u, rest, "<br");
    if StartsWithAnyCase(u, "<br") {
      var y := u[3..];
      assert (u + rest)[3..] == y + rest;
      SpaceRunBlank(y);
      var n := SpaceRun(y);
      assert y == y[..n] + y[n..];
      assert y + rest == y[..n] + (y[n..] + rest);
      SpaceRunIs(y[..n], y[n..] + rest);
    }
  }

  lemma BreakStops(b: Break, u: string, rest: string)
    requires u != [] && rest != [] && rest[0] == '<'
    ensures PatternOf(b)(u + rest) == PatternOf(b)(u)
    ensures PatternOf(b)(u).Some? ==> PatternOf(b)(u).value.len <= |u|
  {
    match b
    case Br => LineBreakStops(u, rest);
    case P => WordStops(u, rest, "</p>");
    case Div => WordStops(u, rest, "</div>");
    case Li => WordStops(u, rest, "</li>");
  }

  lemma SubFires(p: Pattern, u: string)
    requires Fires(p, u)
    ensures Sub(p, u) == p(u).value.text + Sub(p, u[p(u).value.len..])
  {}

  /** Nothing that begins before a `<` goes on past it. */
  ghost predicate Stops(p: Pattern) {
    forall u, rest :: u != [] && rest != [] && rest[0] == '<' ==> StopsAt(p, u, rest)
  }

  predicate StopsAt(p: Pattern, u: string, rest: string) {
    p(u + rest) == p(u) && (p(u).Some? ==> p(u).value.len <= |u|)
  }

  lemma BreaksStop(b: Break)
    ensures Stops(PatternOf(b))
  {
    forall u, rest | u != [] && rest != [] && rest[0] == '<' ensures StopsAt(PatternOf(b), u, rest) {
      BreakStops(b, u, rest);
    }
  }

  lemma {:induction false} PassInside(p: Pattern, body: string, rest: string)
    requires Stops(p) && rest != [] && rest[0] == '<'
    ensures Sub(p, body + rest) == Sub(p, body) + Sub(p, rest)
    decreases |body|
  {
    if body == [] {
      assert body + rest == rest;
    } else {
      var u := body + rest;
      assert StopsAt(p, body, rest);
      if Fires(p, body) {
        var n := p(body).value.len;
        assert u[n..] == body[n..] + rest;
        PassInside(p, body[n..], rest);
        SubFires(p, u);
        SubFires(p, body);
      } else {
        assert u == [body[0]] + (body[1..] + rest) && body == [body[0]] + body[1..];
        PassInside(p, body[1..], rest);
        SkipOne(p, body[0], body[1..] + rest);
        SkipOne(p, body[0], body[1..]);
      }
    }
  }

  predicate Newlines(t: string) {
    t != "" && forall i :: 0 <= i < |t| ==> t[i] == '\n'
  }

  lemma BreakText(b: Break, u: string)
    ensures PatternOf(b)(u).Some? ==> Newlines(PatternOf(b)(u).value.text)
  {}

  lemma NewlineMisses(t: string, word: string)
    requires t != "" && t[0] == '\n' && word != "" && '\n' !in word
    ensures !StartsWithAnyCase(t, word)
  {
    assert word[0] in word;
    AnyCaseMiss(t, word, 0);
  }

  /** A word without a line break that stands in front after a break pass stood there before it. */
  lemma {:induction false} WordComesThrough(b: Break, u: string, word: string)
    requires '\n' !in word
    ensures StartsWithAnyCase(Sub(PatternOf(b), u), word) ==> StartsWithAnyCase(u, word)
    decreases |word|
  {
    var p := PatternOf(b);
    if word != "" && u != "" {
      BreakText(b, u);
      if Fires(p, u) {
        NewlineMisses(Sub(p, u), word);
      } else {
        assert u == [u[0]] + u[1..] && word == [word[0]] + word[1..];
        SkipOne(p, u[0], u[1..]);
        AnyCaseCons(u[0], Sub(p, u[1..]), word[0], word[1..]);
        AnyCaseCons(u[0], u[1..], word[0], word[1..]);
        assert forall c :: c in word[1..] ==> c in word;
        WordComesThrough(b, u[1..], word[1..]);
      }
    }
  }

  lemma {:induction false} LacksSuffix(s: string, word: string, n: nat)
    requires Lacks(s, word) && n <= |s|
    ensures Lacks(s[n..], word)
  {
    if n > 0 {
      LacksSuffix(s[1..], word, n - 1);
      assert s[1..][n - 1..] == s[n..];
    }
  }

  lemma {:induction false} LacksAfterNewlines(t: string, s: string, word: string)
    requires (t == "" || Newlines(t)) && word != "" && word[0] == '<' && Lacks(s, word)
    ensures Lacks(t + s, word)
  {
    if t == "" {
      assert t + s == s;
    } else {
      assert (t + s)[1..] == t[1..] + s && (t + s)[0] == '\n';
      AnyCaseMiss(t + s, word, 0);
      LacksAfterNewlines(t[1..], s, word);
    }
  }

  /** A break pass forms no opener and no closer. */
  lemma {:induction false} LacksComesThrough(b: Break, s: string, word: string)
    requires Lacks(s, word) && word != "" && word[0] == '<' && '\n' !in word
    ensures Lacks(Sub(PatternOf(b), s), word)
    decreases |s|
  {
    var p := PatternOf(b);
    if s != [] {
      BreakText(b, s);
      if Fires(p, s) {
        var m := p(s).value;
        LacksSuffix(s, word, m.len);
        LacksComesThrough(b, s[m.len..], word);
        LacksAfterNewlines(m.text, Sub(p, s[m.len..]), word);
      } else {
        LacksComesThrough(b, s[1..], word);
        assert Sub(p, s)[1..] == Sub(p, s[1..]);
        WordComesThrough(b, s, word);
      }
    }
  }

  // ---------------------------------------------------------------------------------------
  // The first pass: line breaks
  // ---------------------------------------------------------------------------------------

  function Changed(b: Break, p: Piece): Piece {
    match p
    case Chars(_) => p
    case Tag(x) => if Says(b, x).Some? then Chars(Says(b, x).value) else p
    case Raw(_, _, body, _) => p.(body := Sub(PatternOf(b), body))
  }

  lemma BeginsOtherwise(x: string, word: string, other: string)
    requires StartsWithAnyCase(x, word) && word != "" && other != "" && word[0] != other[0]
    ensures !StartsWithAnyCase(x, other)
  {
    LowerAt(x[..|word|], 0);
    AnyCaseMiss(x, other, 0);
  }

  lemma WholeWord(x: string, word: string)
    ensures ToLower(x) == word ==> StartsWithAnyCase(x, word)
  {
    assert x[..|x|] == x;
  }

  /** The tags of a block stand for no break. */
  lemma RawSaysNothing(b: Break, p: Piece)
    requires p.Raw? && WellMade(p)
    ensures Says(b, p.opener).None? && Says(b, p.closer).None?
  {
    OpenerSaysNothing(b, p.opener, NameOf(p.script));
    CloserSaysNothing(b, p.closer, NameOf(p.script));
  }

  lemma OpenerSaysNothing(b: Break, x: string, name: string)
    requires StartsWithAnyCase(x, name) && (name == "script" || name == "style")
    ensures Says(b, x).None?
  {
    BeginsOtherwise(x, name, "br");
    BeginsOtherwise(x, name, "/p");
    WholeWord(x, "/p");
    WholeWord(x, "/div");
    WholeWord(x, "/li");
  }

  lemma CloserSaysNothing(b: Break, x: string, name: string)
    requires StartsWithAnyCase(x, "/" + name) && (name == "script" || name == "style")
    ensures Says(b, x).None?
  {
    BeginsOtherwise(x, "/" + name, "br");
    assert ("/" + name)[1] == 's';
    LowerAt(x[..|name| + 1], 1);
    LowerAt(x, 1);
  }

  /** A block and what follows, cut into its parts. */
  lemma RawLayout(p: Piece, rest: string)
    requires p.Raw?
    ensures Html(p) + rest == Bracketed(p.opener) + (p.body + (Bracketed(p.closer) + rest))
  {
    Reassociate(Bracketed(p.opener), p.body, Bracketed(p.closer), rest);
  }

  lemma Reassociate(a: string, b: string, c: string, d: string)
    ensures (a + (b + c)) + d == a + (b + (c + d))
  {}

  lemma BreakRaw(b: Break, p: Piece, rest: string)
    requires p.Raw? && WellMade(p)
    ensures Sub(PatternOf(b), Html(p) + rest) == Html(Changed(b, p)) + Sub(PatternOf(b), rest)
  {
    var q := PatternOf(b);
    RawSaysNothing(b, p);
    RawLayout(p, rest);
    BreakTag(b, p.opener, p.body + (Bracketed(p.closer) + rest));
    BreaksStop(b);
    PassInside(q, p.body, Bracketed(p.closer) + rest);
    BreakTag(b, p.closer, rest);
    Reassociate(Bracketed(p.opener), Sub(q, p.body), Bracketed(p.closer), Sub(q, rest));
  }

  lemma BreakPiece(b: Break, p: Piece, rest: string)
    requires WellMade(p)
    ensures Sub(PatternOf(b), Html(p) + rest) == Html(Changed(b, p)) + Sub(PatternOf(b), rest)
  {
    match p
    case Chars(text) =>
      BreakNeedsAngle(b);
      SkipChars(PatternOf(b), text, rest);
    case Tag(x) => BreakTag(b, x, rest);
    case Raw(_, _, _, _) => BreakRaw(b, p, rest);
  }

  lemma ChangedIsWellMade(b: Break, p: Piece)
    requires WellMade(p)
    ensures WellMade(Changed(b, p))
  {
    if p.Raw? {
      assert ("</" + NameOf(p.script))[0] == '<';
      LacksComesThrough(b, p.body, "</" + NameOf(p.script));
      if !p.script {
        LacksComesThrough(b, p.body, "<script");
      }
    }
  }

  /** A piece once the breaks have been put in. */
  function Broken(p: Piece): Piece {
    match p
    case Chars(_) => p
    case Tag(x) => if BreakOf(x) != "" then Chars(BreakOf(x)) else p
    case Raw(_, _, body, _) => p.(body := BlockBreaks(body))
  }

  lemma BrokenIs(p: Piece)
    ensures Changed(Li, Changed(Div, Changed(P, Changed(Br, p)))) == Broken(p)
  {
    if p.Tag? && IsBr(p.inside) {
      BrIsNoCloser(p.inside);
    }
  }

  lemma BrIsNoCloser(x: string)
    requires IsBr(x)
    ensures ToLower(x) != "/p" && ToLower(x) != "/div" && ToLower(x) != "/li"
  {
    LowerAt(x[..2], 0);
    LowerAt(x, 0);
  }

  lemma BrokenIsWellMade(p: Piece)
    requires WellMade(p)
    ensures WellMade(Broken(p)) && WellMade(Changed(Br, p)) && WellMade(Changed(P, Changed(Br, p)))
    ensures WellMade(Changed(Div, Changed(P, Changed(Br, p))))
  {
    ChangedIsWellMade(Br, p);
    ChangedIsWellMade(P, Changed(Br, p));
    ChangedIsWellMade(Div, Changed(P, Changed(Br, p)));
    ChangedIsWellMade(Li, Changed(Div, Changed(P, Changed(Br, p))));
    BrokenIs(p);
  }

  lemma HalfBroken(p: Piece, rest: string)
    requires WellMade(p)
    ensures var p2 := Changed(P, Changed(Br, p));
            Sub(ParagraphEnd, Sub(LineBreak, Html(p) + rest)) == Html(p2) + Sub(ParagraphEnd, Sub(LineBreak, rest))
  {
    BrokenIsWellMade(p);
    BreakPiece(Br, p, rest);
    BreakPiece(P, Changed(Br, p), Sub(LineBreak, rest));
  }

  lemma OtherHalfBroken(p: Piece, rest: string)
    requires WellMade(p) && WellMade(Changed(Div, p))
    ensures Sub(ItemEnd, Sub(DivEnd, Html(p) + rest))
         == Html(Changed(Li, Changed(Div, p))) + Sub(ItemEnd, Sub(DivEnd, rest))
  {
    BreakPiece(Div, p, rest);
    BreakPiece(Li, Changed(Div, p), Sub(DivEnd, rest));
  }

  lemma PieceBroken(p: Piece, rest: string)
    requires WellMade(p)
    ensures BlockBreaks(Html(p) + rest) == Html(Broken(p)) + BlockBreaks(rest)
  {
    BrokenIsWellMade(p);
    HalfBroken(p, rest);
    OtherHalfBroken(Changed(P, Changed(Br, p)), Sub(ParagraphEnd, Sub(LineBreak, rest)));
    BrokenIs(p);
  }

  function BrokenAll(pieces: seq<Piece>): seq<Piece> {
    if pieces == [] then [] else [Broken(pieces[0])] + BrokenAll(pieces[1..])
  }

  /** No tag is left that stands for a break. */
  predicate NoBreaks(pieces: seq<Piece>) {
    forall i :: 0 <= i < |pieces| ==> (pieces[i].Tag? ==> BreakOf(pieces[i].inside) == "")
  }

  lemma {:induction false} BreaksPutIn(pieces: seq<Piece>)
    requires AllWellMade(pieces)
    ensures BlockBreaks(HtmlOf(pieces)) == HtmlOf(BrokenAll(pieces))
    ensures AllWellMade(BrokenAll(pieces)) && NoBreaks(BrokenAll(pieces))
    ensures TextOf(BrokenAll(pieces)) == TextOf(pieces)
  {
    if pieces != [] {
      WellMadeTail(pieces);
      BreaksPutIn(pieces[1..]);
      PieceBroken(pieces[0], HtmlOf(pieces[1..]));
      BrokenIsWellMade(pieces[0]);
      var first, rest := Broken(pieces[0]), BrokenAll(pieces[1..]);
      assert BrokenAll(pieces) == [first] + rest && ([first] + rest)[1..] == rest;
    }
  }

  // ---------------------------------------------------------------------------------------
  // The second pass: scripts and styles
  // ---------------------------------------------------------------------------------------

  /** One tag that begins, in any letter case, with a word. */
  predicate OneTag(w: string, word: string) {
    StartsWithAnyCase(w, word) && |word| < |w| && w[|w| - 1] == '>' && '>' !in w[..|w| - 1]
  }

  lemma BracketedIsOneTag(x: string, word: string)
    requires NoAngles(x) && StartsWithAnyCase(x, word)
    ensures OneTag(Bracketed(x), "<" + word)
  {
    assert Bracketed(x) == ['<'] + (x + ">") && "<" + word == ['<'] + word;
    AnyCasePrefix(x, ">", word);
    AnyCaseCons('<', x + ">", '<', word);
    assert forall i :: 1 <= i < |x| + 1 ==> Bracketed(x)[i] == x[i - 1];
  }

  /** Such a tag ends where it ends, whatever follows. */
  lemma TagEnds(w: string, word: string, rest: string)
    requires OneTag(w, word)
    ensures TagEnd(w + rest, word) == Some(|w|)
  {
    AnyCasePrefix(w, rest, word);
    var inside := w[|word|..|w| - 1];
    assert (w + rest)[|word|..] == inside + (['>'] + rest);
    assert forall c :: c in inside ==> c in w[..|w| - 1];
    UpToSkips(inside, rest, '>');
  }

  lemma CloseEndHere(u: string, name: string)
    requires u != [] && TagEnd(u, "</" + name).Some?
    ensures CloseEnd(u, name) == TagEnd(u, "</" + name)
  {}

  lemma CloseEndSkips(u: string, name: string)
    requires u != [] && !StartsWithAnyCase(u, "</" + name)
    ensures CloseEnd(u, name) == match CloseEnd(u[1..], name) case None => None case Some(k) => Some(k + 1)
  {}

  lemma {:induction false} CloserFound(name: string, body: string, tail: string, k: nat)
    requires Lacks(body, "</" + name) && '<' !in name && tail != [] && tail[0] == '<'
    requires CloseEnd(tail, name) == Some(k)
    ensures CloseEnd(body + tail, name) == Some(|body| + k)
  {
    if body == [] {
      assert body + tail == tail;
    } else {
      CloserWord(name);
      WordStops(body, tail, "</" + name);
      CloseEndSkips(body + tail, name);
      assert (body + tail)[1..] == body[1..] + tail;
      CloserFound(name, body[1..], tail, k);
    }
  }

  lemma CloserWord(name: string)
    requires '<' !in name
    ensures forall i :: 1 <= i < |"</" + name| ==> ("</" + name)[i] != '<'
  {
    var word := "</" + name;
    assert forall i :: 2 <= i < |word| ==> word[i] == name[i - 2];
  }

  lemma BlockAt(u: string, name: string, open: nat, k: nat)
    requires TagEnd(u, "<" + name) == Some(open) && open <= |u| && CloseEnd(u[open..], name) == Some(k)
    ensures Block(u, name) == Some(Match(open + k, ""))
  {}

  lemma TagHasAngle(f: string, name: string)
    requires OneTag(f, "</" + name)
    ensures f != [] && f[0] == '<'
  {
    AnyCaseAngle(f, "</" + name);
  }

  /** Where the first closer ends, behind a body that has none. */
  lemma BodyCloses(name: string, body: string, f: string, rest: string) returns (inner: string)
    requires OneTag(f, "</" + name) && '<' !in name && Lacks(body, "</" + name)
    ensures inner == body + (f + rest) && CloseEnd(inner, name) == Some(|body| + |f|)
  {
    var tail := f + rest;
    inner := body + tail;
    TagHasAngle(f, name);
    TagEnds(f, "</" + name, rest);
    CloseEndHere(tail, name);
    CloserFound(name, body, tail, |f|);
  }

  lemma BlockOpens(name: string, h: string, inner: string, k: nat)
    requires OneTag(h, "<" + name) && CloseEnd(inner, name) == Some(k)
    ensures Block(h + inner, name) == Some(Match(|h| + k, ""))
  {
    TagEnds(h, "<" + name, inner);
    assert (h + inner)[|h|..] == inner;
    BlockAt(h + inner, name, |h|, k);
  }

  lemma NameHasNoAngle(script: bool)
    ensures '<' !in NameOf(script) && "<" + ("/" + NameOf(script)) == "</" + NameOf(script)
  {}

  /** Where a block's first tag ends and what follows it. */
  lemma RawCut(p: Piece, rest: string) returns (h: string, inner: string)
    requires p.Raw? && WellMade(p)
    ensures Html(p) + rest == h + inner && OneTag(h, "<" + NameOf(p.script)) && |h| <= |Html(p)|
    ensures CloseEnd(inner, NameOf(p.script)) == Some(|Html(p)| - |h|)
  {
    h := Bracketed(p.opener);
    NameHasNoAngle(p.script);
    BracketedIsOneTag(p.opener, NameOf(p.script));
    BracketedIsOneTag(p.closer, "/" + NameOf(p.script));
    RawLayout(p, rest);
    inner := BodyCloses(NameOf(p.script), p.body, Bracketed(p.closer), rest);
  }

  lemma CutTaken(html: string, rest: string, h: string, inner: string, name: string)
    requires html + rest == h + inner && OneTag(h, "<" + name) && |h| <= |html|
    requires CloseEnd(inner, name) == Some(|html| - |h|)
    ensures Block(html + rest, name) == Some(Match(|html|, ""))
  {
    BlockOpens(name, h, inner, |html| - |h|);
  }

  /** A whole block is one match. */
  lemma BlockTaken(p: Piece, rest: string)
    requires p.Raw? && WellMade(p)
    ensures Block(Html(p) + rest, NameOf(p.script)) == Some(Match(|Html(p)|, ""))
  {
    var h, inner := RawCut(p, rest);
    CutTaken(Html(p), rest, h, inner, NameOf(p.script));
  }

  function BlockPattern(script: bool): Pattern {
    if script then ScriptBlock else StyleBlock
  }

  lemma BlockMisses(script: bool, u: string)
    requires !StartsWithAnyCase(u, "<" + NameOf(script))
    ensures BlockPattern(script)(u).None?
  {}

  lemma TagIsNoBlock(script: bool, x: string, rest: string)
    requires !StartsWithAnyCase(x, NameOf(script))
    ensures BlockPattern(script)("<" + x + ">" + rest).None?
  {
    var word := NameOf(script);
    TagBegins(x, rest, word);
    assert "<" + x + ">" + rest == ['<'] + (x + ">" + rest) && "<" + word == ['<'] + word;
    AnyCaseCons('<', x + ">" + rest, '<', word);
    BlockMisses(script, "<" + x + ">" + rest);
  }

  /** Text in which no script begins is passed over. */
  lemma {:induction false} NoScriptInside(body: string, rest: string)
    requires Lacks(body, "<script") && rest != [] && rest[0] == '<'
    ensures Sub(ScriptBlock, body + rest) == body + Sub(ScriptBlock, rest)
  {
    if body == [] {
      assert body + rest == rest;
    } else {
      WordStops(body, rest, "<script");
      assert "<" + NameOf(true) == "<script";
      BlockMisses(true, body + rest);
      assert body + rest == [body[0]] + (body[1..] + rest);
      SkipOne(ScriptBlock, body[0], body[1..] + rest);
      NoScriptInside(body[1..], rest);
      ConsAppend(body, Sub(ScriptBlock, rest));
    }
  }

  lemma NameDiffers(p: Piece)
    requires p.Raw? && !p.script && WellMade(p)
    ensures !StartsWithAnyCase(p.opener, "script") && !StartsWithAnyCase(p.closer, "script")
  {
    LowerAt(p.opener[..5], 1);
    AnyCaseMiss(p.opener, "script", 1);
    BeginsOtherwise(p.closer, "/style", "script");
  }

  lemma StyleIsNoScript(p: Piece, rest: string)
    requires p.Raw? && !p.script && WellMade(p)
    ensures Sub(ScriptBlock, Html(p) + rest) == Html(p) + Sub(ScriptBlock, rest)
  {
    RawLayout(p, rest);
    NameDiffers(p);
    PatternsNeedAngle();
    TagIsNoBlock(true, p.opener, p.body + (Bracketed(p.closer) + rest));
    TagIsNoBlock(true, p.closer, rest);
    SkipTag(ScriptBlock, p.opener, p.body + (Bracketed(p.closer) + rest));
    NoScriptInside(p.body, Bracketed(p.closer) + rest);
    SkipTag(ScriptBlock, p.closer, rest);
    RawLayout(p, Sub(ScriptBlock, rest));
  }

  lemma {:induction false} PlainOfBlocks(script: bool, p: Piece, rest: string)
    requires WellMade(p) && !p.Raw?
    ensures Sub(BlockPattern(script), Html(p) + rest) == Html(p) + Sub(BlockPattern(script), rest)
  {
    PatternsNeedAngle();
    match p
    case Chars(text) => SkipChars(BlockPattern(script), text, rest);
    case Tag(x) =>
      TagIsNoBlock(script, x, rest);
      SkipTag(BlockPattern(script), x, rest);
  }

  /** The pieces without their scripts, or without their styles. */
  function Without(script: bool, pieces: seq<Piece>): seq<Piece> {
    if pieces == [] then []
    else (if pieces[0].Raw? && pieces[0].script == script then [] else [pieces[0]]) + Without(script, pieces[1..])
  }

  predicate NoScripts(pieces: seq<Piece>) {
    forall i :: 0 <= i < |pieces| ==> !(pieces[i].Raw? && pieces[i].script)
  }

  lemma HtmlCons(p: Piece, rest: seq<Piece>)
    ensures HtmlOf([p] + rest) == Html(p) + HtmlOf(rest) && TextOf([p] + rest) == TextIn(p) + TextOf(rest)
  {
    assert ([p] + rest)[1..] == rest;
  }

  lemma BlockPiece(script: bool, p: Piece, rest: string)
    requires WellMade(p) && (script || !(p.Raw? && p.script))
    ensures Sub(BlockPattern(script), Html(p) + rest)
         == (if p.Raw? && p.script == script then "" else Html(p)) + Sub(BlockPattern(script), rest)
  {
    if p.Raw? && p.script == script {
      BlockTaken(p, rest);
      TakeMatch(BlockPattern(script), Html(p), rest, "");
    } else if p.Raw? {
      StyleIsNoScript(p, rest);
    } else {
      PlainOfBlocks(script, p, rest);
    }
  }

  lemma WithoutCons(script: bool, pieces: seq<Piece>)
    requires pieces != []
    ensures HtmlOf(Without(script, pieces))
         == (if pieces[0].Raw? && pieces[0].script == script then "" else Html(pieces[0]))
            + HtmlOf(Without(script, pieces[1..]))
    ensures TextOf(Without(script, pieces))
         == (if pieces[0].Raw? && pieces[0].script == script then "" else TextIn(pieces[0]))
            + TextOf(Without(script, pieces[1..]))
  {
    HtmlCons(pieces[0], Without(script, pieces[1..]));
    if pieces[0].Raw? && pieces[0].script == script {
      assert Without(script, pieces) == Without(script, pieces[1..]);
    }
  }

  lemma {:induction false} BlocksTakenOut(script: bool, pieces: seq<Piece>)
    requires AllWellMade(pieces) && (script || NoScripts(pieces))
    ensures Sub(BlockPattern(script), HtmlOf(pieces)) == HtmlOf(Without(script, pieces))
    ensures TextOf(Without(script, pieces)) == TextOf(pieces)
  {
    if pieces != [] {
      WellMadeTail(pieces);
      assert forall i :: 0 <= i < |pieces[1..]| ==> pieces[1..][i] == pieces[i + 1];
      BlocksTakenOut(script, pieces[1..]);
      BlockPiece(script, pieces[0], HtmlOf(pieces[1..]));
      WithoutCons(script, pieces);
    }
  }

  lemma {:induction false} WithoutMembers(script: bool, pieces: seq<Piece>)
    ensures forall p :: p in Without(script, pieces) ==> p in pieces && !(p.Raw? && p.script == script)
  {
    if pieces != [] {
      WithoutMembers(script, pieces[1..]);
    }
  }

  lemma WithoutKeeps(script: bool, pieces: seq<Piece>)
    requires AllWellMade(pieces)
    ensures AllWellMade(Without(script, pieces)) && (NoBreaks(pieces) ==> NoBreaks(Without(script, pieces)))
    ensures script ==> NoScripts(Without(script, pieces))
    ensures !script && NoScripts(pieces) ==> NoRaw(Without(script, pieces))
  {
    WithoutMembers(script, pieces);
    var rest := Without(script, pieces);
    forall i | 0 <= i < |rest| ensures rest[i] in pieces && !(rest[i].Raw? && rest[i].script == script) {
      assert rest[i] in rest;
    }
  }

  predicate NoRaw(pieces: seq<Piece>) {
    forall i :: 0 <= i < |pieces| ==> !pieces[i].Raw?
  }

  lemma {:induction false} NothingToTake(script: bool, pieces: seq<Piece>)
    requires NoRaw(pieces)
    ensures Without(script, pieces) == pieces
  {
    if pieces != [] {
      assert forall i :: 0 <= i < |pieces[1..]| ==> pieces[1..][i] == pieces[i + 1];
      NothingToTake(script, pieces[1..]);
    }
  }

  /** Two passes that leave `t` alone and turn `s` into it settle on it. */
  lemma SettlesOn(p: Pattern, q: Pattern, s: string, t: string)
    requires Deletes(p) && Deletes(q) && Sub(q, Sub(p, s)) == t && Sub(q, Sub(p, t)) == t
    ensures Settle(p, q, s) == t
  {
    PassShrinks(p, q, s);
  }

  lemma BlocksSettle(pieces: seq<Piece>) returns (left: seq<Piece>)
    requires AllWellMade(pieces)
    ensures Settle(ScriptBlock, StyleBlock, HtmlOf(pieces)) == HtmlOf(left)
    ensures AllWellMade(left) && NoRaw(left) && TextOf(left) == TextOf(pieces) && (NoBreaks(pieces) ==> NoBreaks(left))
  {
    var mid := Without(true, pieces);
    left := Without(false, mid);
    WithoutKeeps(true, pieces);
    WithoutKeeps(false, mid);
    BlocksTakenOut(true, pieces);
    BlocksTakenOut(false, mid);
    StaysSettled(left);
    PatternsDelete();
    SettlesOn(ScriptBlock, StyleBlock, HtmlOf(pieces), HtmlOf(left));
  }

  lemma StaysSettled(pieces: seq<Piece>)
    requires AllWellMade(pieces) && NoRaw(pieces)
    ensures Sub(StyleBlock, Sub(ScriptBlock, HtmlOf(pieces))) == HtmlOf(pieces)
  {
    BlocksTakenOut(true, pieces);
    NothingToTake(true, pieces);
    BlocksTakenOut(false, pieces);
    NothingToTake(false, pieces);
  }

  // ---------------------------------------------------------------------------------------
  // The third pass: the other tags
  // ---------------------------------------------------------------------------------------

  lemma TagTaken(x: string, rest: string)
    requires x != "" && !Has(x, '>')
    ensures Sub(CompleteTag, "<" + x + ">" + rest) == Sub(CompleteTag, rest)
  {
    var u := "<" + x + ">" + rest;
    assert u[1..] == x + (['>'] + rest);
    UpToSkips(x, rest, '>');
    TakeMatch(CompleteTag, "<" + x + ">", rest, "");
  }

  lemma {:induction false} TagsTakenOut(pieces: seq<Piece>)
    requires AllWellMade(pieces) && NoRaw(pieces) && NoBreaks(pieces)
    ensures Sub(CompleteTag, HtmlOf(pieces)) == TextOf(pieces) && !Has(TextOf(pieces), '<')
  {
    if pieces != [] {
      WellMadeTail(pieces);
      assert forall i :: 0 <= i < |pieces[1..]| ==> pieces[1..][i] == pieces[i + 1];
      TagsTakenOut(pieces[1..]);
      PatternsNeedAngle();
      match pieces[0]
      case Chars(text) =>
        SkipChars(CompleteTag, text, HtmlOf(pieces[1..]));
        HasAppend(text, TextOf(pieces[1..]), '<');
      case Tag(x) => TagTaken(x, HtmlOf(pieces[1..]));
    }
  }

  /**
   Main result.  Scripts and styles go with all they hold, in any letter case and with any attributes;
   `br`, `/p`, `/div` and `/li` tags become their line breaks, every other tag goes, and the text between
   them stays as it is.
   */
  lemma MarkupReadsAsText(pieces: seq<Piece>)
    requires AllWellMade(pieces)
    ensures StripMarkup(HtmlOf(pieces)) == TextOf(pieces)
  {
    var broken := BrokenAll(pieces);
    BreaksPutIn(pieces);
    var left := BlocksSettle(broken);
    TagsTakenOut(left);
    PatternsNeedAngle();
    PatternsDelete();
    NoAngleNoMatch(IncompleteTag, TextOf(left));
    NoAngleNoMatch(CompleteTag, TextOf(left));
    SettlesOn(CompleteTag, IncompleteTag, HtmlOf(left), TextOf(left));
  }

  // ---------------------------------------------------------------------------------------
  // A whole page
  // ---------------------------------------------------------------------------------------

  /** The page a writer makes: text escaped, markup as it is. */
  function Escaped(pieces: seq<Piece>): seq<Piece> {
    if pieces == [] then []
    else [if pieces[0].Chars? then Chars(Escape(pieces[0].text)) else pieces[0]] + Escaped(pieces[1..])
  }

  lemma {:induction false} EscapeAppend(a: string, b: string)
    ensures Escape(a + b) == Escape(a) + Escape(b)
  {
    if a == [] {
      assert a + b == b;
    } else {
      assert (a + b)[0] == a[0] && (a + b)[1..] == a[1..] + b;
      EscapeAppend(a[1..], b);
    }
  }

  lemma EscapeBreaks()
    ensures Escape("") == "" && Escape("\n") == "\n" && Escape("\n\n") == "\n\n"
  {
    assert "\n"[1..] == "" && "\n\n"[1..] == "\n";
  }

  lemma EscapedPiece(p: Piece)
    requires !p.Chars?
    ensures Escape(TextIn(p)) == TextIn(p)
  {
    EscapeBreaks();
  }

  predicate MarkupWellMade(pieces: seq<Piece>) {
    forall i :: 0 <= i < |pieces| ==> pieces[i].Chars? || WellMade(pieces[i])
  }

  lemma {:induction false} EscapedAll(pieces: seq<Piece>)
    requires MarkupWellMade(pieces)
    ensures AllWellMade(Escaped(pieces)) && TextOf(Escaped(pieces)) == Escape(TextOf(pieces))
  {
    if pieces != [] {
      var p, rest := pieces[0], pieces[1..];
      assert forall i :: 0 <= i < |rest| ==> rest[i] == pieces[i + 1];
      EscapedAll(rest);
      EscapeAppend(TextIn(p), TextOf(rest));
      if p.Chars? {
        EscapeHasNoAngle(p.text);
        HtmlCons(Chars(Escape(p.text)), Escaped(rest));
      } else {
        EscapedPiece(p);
        HtmlCons(p, Escaped(rest));
      }
    }
  }

  /**
   Main result.  A page of any text, escaped, with any well-made tags, scripts and styles between, reads
   as that text with its line breaks, up to long runs of blank lines and outer white space.
   */
  lemma PageReadsBack(pieces: seq<Piece>)
    requires MarkupWellMade(pieces)
    ensures PlainTextOf(HtmlOf(Escaped(pieces))) == Trim(Collapse(TextOf(pieces)))
  {
    EscapedAll(pieces);
    MarkupReadsAsText(Escaped(pieces));
    DecodeUndoesEscape(TextOf(pieces));
  }

  // ---------------------------------------------------------------------------------------
  // Entities, blank lines and a tag that is never closed
  // ---------------------------------------------------------------------------------------

  lemma EntityReads(k: nat, a: string, b: string)
    requires k < |ENTITIES| && !Has(a, '&')
    ensures DecodeInTurn(a + (Written(ENTITIES[k]) + b)) == a + ([ENTITIES[k].glyph] + DecodeInTurn(b))
  {
    SixAreOrderly();
    OrderedIsSinglePass(a + (Written(ENTITIES[k]) + b));
    OrderedIsSinglePass(b);
    PlainCopied(ENTITIES, a, Written(ENTITIES[k]) + b);
    EntityFound(ENTITIES, k, b);
  }

  /** The six entities, each once, wherever it stands first in the text. */
  lemma EntitiesRead(a: string, b: string)
    requires !Has(a, '&')
    ensures DecodeInTurn(a + ("&lt;" + b)) == a + (['<'] + DecodeInTurn(b))
    ensures DecodeInTurn(a + ("&gt;" + b)) == a + (['>'] + DecodeInTurn(b))
    ensures DecodeInTurn(a + ("&quot;" + b)) == a + (['\"'] + DecodeInTurn(b))
    ensures DecodeInTurn(a + ("&#39;" + b)) == a + (['\''] + DecodeInTurn(b))
    ensures DecodeInTurn(a + ("&nbsp;" + b)) == a + ([' '] + DecodeInTurn(b))
    ensures DecodeInTurn(a + ("&amp;" + b)) == a + (['&'] + DecodeInTurn(b))
  {
    assert Written(LT) == "&lt;" && Written(GT) == "&gt;" && Written(QUOT) == "&quot;";
    assert Written(APOS) == "&#39;" && Written(NBSP) == "&nbsp;" && Written(AMP) == "&amp;";
    EntityReads(0, a, b);
    EntityReads(1, a, b);
    EntityReads(2, a, b);
    EntityReads(3, a, b);
    EntityReads(4, a, b);
    EntityReads(5, a, b);
  }

  function Breaks(n: nat): string {
    seq(n, i => '\n')
  }

  lemma {:induction false} LineCopied(t: string, rest: string)
    requires '\n' !in t
    ensures Collapse(t + rest) == t + Collapse(rest)
  {
    if t == [] {
      assert t + rest == rest;
    } else {
      var u := t + rest;
      assert u == [t[0]] + (t[1..] + rest);
      assert t[0] in t && forall c :: c in t[1..] ==> c in t;
      SkipOne(ManyNewlines, t[0], t[1..] + rest);
      LineCopied(t[1..], rest);
      ConsAppend(t, Collapse(rest));
    }
  }

  lemma RunTaken(n: nat, rest: string)
    requires rest == [] || rest[0] != '\n'
    ensures Collapse(Breaks(n) + rest) == Breaks(if n >= 3 then 2 else n) + Collapse(rest)
  {
    var u := Breaks(n) + rest;
    assert forall i :: 0 <= i < n ==> u[i] == Breaks(n)[i];
    assert n < |u| ==> u[n] == rest[0];
    NewlineRunIs(u, n);
    if n >= 3 {
      assert Breaks(2) == "\n\n";
      TakeMatch(ManyNewlines, Breaks(n), rest, "\n\n");
    } else if n == 0 {
      assert u == rest;
    } else if n == 1 {
      assert u == ['\n'] + rest && Breaks(1) == ['\n'];
      SkipOne(ManyNewlines, '\n', rest);
    } else {
      assert u == ['\n'] + (['\n'] + rest) && Breaks(2) == ['\n'] + ['\n'];
      NewlineRunIs(['\n'] + rest, 1);
      SkipOne(ManyNewlines, '\n', ['\n'] + rest);
      SkipOne(ManyNewlines, '\n', rest);
    }
  }

  /** Collapsing goes line by line: the characters of a line stay, the breaks after it are cut to two. */
  lemma CollapseByLine(t: string, n: nat, rest: string)
    requires '\n' !in t && (rest == [] || rest[0] != '\n')
    ensures Collapse(t + (Breaks(n) + rest)) == t + (Breaks(if n >= 3 then 2 else n) + Collapse(rest))
  {
    LineCopied(t, Breaks(n) + rest);
    RunTaken(n, rest);
  }

  ghost predicate NeedsClose(p: Pattern) {
    forall u :: Fires(p, u) ==> '>' in u
  }

  lemma LiteralNeedsClose(u: string, lower: string, text: string)
    requires lower != "" && lower[|lower| - 1] == '>' && Literal(u, lower, text).Some?
    ensures '>' in u
  {
    LowerAt(u[..|lower|], |lower| - 1);
    assert u[|lower| - 1] == '>';
  }

  lemma TagEndNeedsClose(u: string, word: string)
    requires TagEnd(u, word).Some?
    ensures '>' in u
  {
    UpToFinds(u[|word|..], '>');
    assert u[|word|..][UpTo(u[|word|..], '>')] in u;
  }

  lemma BreaksNeedClose(b: Break)
    ensures NeedsClose(PatternOf(b))
  {
    forall u | Fires(PatternOf(b), u) ensures '>' in u {
      match b
      case Br =>
        var n := 3 + SpaceRun(u[3..]);
        assert u[n] == '>' || u[n + 1] == '>';
      case P => LiteralNeedsClose(u, "</p>", "\n\n");
      case Div => LiteralNeedsClose(u, "</div>", "\n");
      case Li => LiteralNeedsClose(u, "</li>", "\n");
    }
  }

  lemma OthersNeedClose()
    ensures NeedsClose(ScriptBlock) && NeedsClose(StyleBlock) && NeedsClose(CompleteTag)
  {
    forall u | Fires(ScriptBlock, u) ensures '>' in u {
      TagEndNeedsClose(u, "<script");
    }
    forall u | Fires(StyleBlock, u) ensures '>' in u {
      TagEndNeedsClose(u, "<style");
    }
    forall u | Fires(CompleteTag, u) ensures '>' in u {
      UpToFinds(u[1..], '>');
      assert u[1..][UpTo(u[1..], '>')] in u;
    }
  }

  /** A last `<` that nothing closes is left alone by every pass that needs the closing bracket. */
  lemma OpenEndStays(p: Pattern, a: string, r: string)
    requires NeedsAngle(p) && NeedsClose(p) && !Has(a, '<') && !Has(r, '<') && '>' !in r
    ensures Sub(p, a + (['<'] + r)) == a + (['<'] + r)
  {
    SkipChars(p, a, ['<'] + r);
    SkipOne(p, '<', r);
    NoAngleNoMatch(p, r);
  }

  lemma OpenEndThrough(a: string, r: string)
    requires !Has(a, '<') && !Has(r, '<') && '>' !in r
    ensures BlockBreaks(a + (['<'] + r)) == a + (['<'] + r)
    ensures Settle(ScriptBlock, StyleBlock, a + (['<'] + r)) == a + (['<'] + r)
    ensures Sub(CompleteTag, a + (['<'] + r)) == a + (['<'] + r)
  {
    PatternsNeedAngle();
    OthersNeedClose();
    BreaksNeedClose(Br);
    BreaksNeedClose(P);
    BreaksNeedClose(Div);
    BreaksNeedClose(Li);
    OpenEndStays(LineBreak, a, r);
    OpenEndStays(ParagraphEnd, a, r);
    OpenEndStays(DivEnd, a, r);
    OpenEndStays(ItemEnd, a, r);
    OpenEndStays(ScriptBlock, a, r);
    OpenEndStays(StyleBlock, a, r);
    OpenEndStays(CompleteTag, a, r);
  }

  lemma IncompleteMatch(c: char, r: string)
    requires Letter(c) && '>' !in r
    ensures IncompleteTag(['<'] + ([c] + r)) == Some(Match(2 + Min(|r|, 500), ""))
  {
    var u := ['<'] + ([c] + r);
    assert u[2..] == r;
    UpToIs(r, '>', |r|);
  }

  lemma OpenEndTaken(c: char, r: string)
    requires Letter(c) && !Has(r, '<') && '>' !in r
    ensures Sub(IncompleteTag, ['<'] + ([c] + r)) == r[Min(|r|, 500)..]
  {
    var n := Min(|r|, 500);
    IncompleteMatch(c, r);
    SubFires(IncompleteTag, ['<'] + ([c] + r));
    assert (['<'] + ([c] + r))[2 + n..] == r[n..];
    assert forall i :: 0 <= i < |r[n..]| ==> r[n..][i] == r[n + i];
    PatternsNeedAngle();
    NoAngleNoMatch(IncompleteTag, r[n..]);
  }

  lemma OpenEndCut(a: string, c: char, r: string)
    requires !Has(a, '<') && Letter(c) && !Has(r, '<') && '>' !in r
    ensures Sub(IncompleteTag, a + (['<'] + ([c] + r))) == a + r[Min(|r|, 500)..]
  {
    PatternsNeedAngle();
    SkipChars(IncompleteTag, a, ['<'] + ([c] + r));
    OpenEndTaken(c, r);
  }

  /** A last tag that is never closed goes, with at most five hundred characters after its first letter. */
  lemma OpenEndReads(a: string, c: char, r: string)
    requires !Has(a, '<') && ('a' <= c <= 'z' || 'A' <= c <= 'Z') && !Has(r, '<') && '>' !in r
    ensures StripMarkup(a + (['<'] + ([c] + r))) == a + r[Min(|r|, 500)..]
  {
    var t := a + r[Min(|r|, 500)..];
    assert !Has([c] + r, '<') && '>' !in [c] + r;
    OpenEndThrough(a, [c] + r);
    OpenEndCut(a, c, r);
    assert !Has(t, '<') by {
      assert forall i :: 0 <= i < |t| ==> t[i] == if i < |a| then a[i] else r[Min(|r|, 500) + i - |a|];
    }
    PatternsNeedAngle();
    PatternsDelete();
    NoAngleNoMatch(CompleteTag, t);
    NoAngleNoMatch(IncompleteTag, t);
    SettlesOn(CompleteTag, IncompleteTag, a + (['<'] + ([c] + r)), t);
  }

  /** `r` does not go on as a tag would: it is empty, begins with `>`, or has no `>` and no letter in front. */
  predicate NoTagFollows(r: string) {
    r == "" || r[0] == '>' || ('>' !in r && !('a' <= r[0] <= 'z') && !('A' <= r[0] <= 'Z'))
  }

  lemma SecondDecides(u: string, word: string)
    requires |u| >= 2 && u[1] == '>' && |word| >= 2 && word[1] != '>'
    ensures !StartsWithAnyCase(u, word)
  {
    AnyCaseMiss(u, word, 1);
  }

  lemma NothingFires(r: string)
    requires NoTagFollows(r)
    ensures var u := ['<'] + r;
            && (forall b :: !Fires(PatternOf(b), u))
            && !Fires(ScriptBlock, u) && !Fires(StyleBlock, u) && !Fires(CompleteTag, u) && !Fires(IncompleteTag, u)
  {
    var u := ['<'] + r;
    if r != "" && r[0] == '>' {
      SecondDecides(u, "<br");
      SecondDecides(u, "</p>");
      SecondDecides(u, "</div>");
      SecondDecides(u, "</li>");
      SecondDecides(u, "<script");
      SecondDecides(u, "<style");
      assert u[1..] == r;
    } else {
      assert '>' !in u;
      forall b ensures !Fires(PatternOf(b), u) {
        BreaksNeedClose(b);
      }
      OthersNeedClose();
    }
  }

  lemma AngleCopied(p: Pattern, a: string, r: string)
    requires NeedsAngle(p) && !Has(a, '<') && !Has(r, '<') && !Fires(p, ['<'] + r)
    ensures Sub(p, a + (['<'] + r)) == a + (['<'] + r)
  {
    SkipChars(p, a, ['<'] + r);
    SkipOne(p, '<', r);
    NoAngleNoMatch(p, r);
  }

  /** A `<` that opens no tag is text: `1 < 2` and `<>` stay as they are. */
  lemma LoneAngleStays(a: string, r: string)
    requires !Has(a, '<') && !Has(r, '<') && NoTagFollows(r)
    ensures StripMarkup(a + (['<'] + r)) == a + (['<'] + r)
  {
    var s := a + (['<'] + r);
    NothingFires(r);
    PatternsNeedAngle();
    PatternsDelete();
    assert !Fires(PatternOf(Br), ['<'] + r) && !Fires(PatternOf(P), ['<'] + r) && !Fires(PatternOf(Div), ['<'] + r)
           && !Fires(PatternOf(Li), ['<'] + r);
    AngleCopied(LineBreak, a, r);
    AngleCopied(ParagraphEnd, a, r);
    AngleCopied(DivEnd, a, r);
    AngleCopied(ItemEnd, a, r);
    AngleCopied(ScriptBlock, a, r);
    AngleCopied(StyleBlock, a, r);
    AngleCopied(CompleteTag, a, r);
    AngleCopied(IncompleteTag, a, r);
    SettlesOn(ScriptBlock, StyleBlock, s, s);
    SettlesOn(CompleteTag, IncompleteTag, s, s);
  }
}
