/** The little string vocabulary the line-oriented components share (JavaScript's `trim`, `startsWith`). */
module Text {
  import opened Common

  predicate IsSpace(c: char) {
    || c == ' ' || '\t' <= c <= '\r' || c == '\U{A0}' || c == '\U{1680}' || '\U{2000}' <= c <= '\U{200A}'
    || c == '\U{2028}' || c == '\U{2029}' || c == '\U{202F}' || c == '\U{205F}' || c == '\U{3000}' || c == '\U{FEFF}'
  }

  predicate Blank(s: string) {
    forall i :: 0 <= i < |s| ==> IsSpace(s[i])
  }

  function TrimStart(s: string): string {
    if s != [] && IsSpace(s[0]) then TrimStart(s[1..]) else s
  }

  function TrimEnd(s: string): string {
    if s != [] && IsSpace(s[|s| - 1]) then TrimEnd(s[..|s| - 1]) else s
  }

  function Trim(s: string): string {
    TrimEnd(TrimStart(s))
  }

  predicate StartsWith(s: string, p: string) {
    p <= s
  }

  /** `p` occurs in `s` at offset `i`. */
  predicate OccursAt(s: string, p: string, i: nat) {
    i + |p| <= |s| && s[i..i + |p|] == p
  }

  predicate Contains(s: string, p: string) {
    exists i: nat :: i <= |s| && OccursAt(s, p, i)
  }

  function LowerChar(c: char): char {
    if 'A' <= c <= 'Z' then (c as int + 32) as char else c
  }

  function UpperChar(c: char): char {
    if 'a' <= c <= 'z' then (c as int - 32) as char else c
  }

  function ToUpper(s: string): (r: string)
    ensures |r| == |s|
  {
    seq(|s|, i requires 0 <= i < |s| => UpperChar(s[i]))
  }

  function ToLower(s: string): (r: string)
    ensures |r| == |s|
  {
    seq(|s|, i requires 0 <= i < |s| => LowerChar(s[i]))
  }

  /** Letter case by character code: the twenty-six letters, each with its partner, and nothing else. */
  lemma CaseFolds(c: char)
    ensures LowerChar(c) as int == if 65 <= c as int <= 90 then c as int + 32 else c as int
    ensures UpperChar(c) as int == if 97 <= c as int <= 122 then c as int - 32 else c as int
  {
    assert 'A' as int == 65 && 'Z' as int == 90 && 'a' as int == 97 && 'z' as int == 122;
  }

  /** Text that neither begins nor ends with white space. */
  predicate Trimmed(s: string) {
    s == [] || (!IsSpace(s[0]) && !IsSpace(s[|s| - 1]))
  }

  lemma {:induction false} TrimStartSkips(pad: string, s: string)
    requires Blank(pad) && (s == [] || !IsSpace(s[0]))
    ensures TrimStart(pad + s) == s
  {
    if pad == [] {
      assert pad + s == s;
    } else {
      assert IsSpace(pad[0]) && (pad + s)[0] == pad[0];
      assert (pad + s)[1..] == pad[1..] + s;
      assert forall i :: 0 <= i < |pad[1..]| ==> pad[1..][i] == pad[i + 1];
      TrimStartSkips(pad[1..], s);
    }
  }

  lemma {:induction false} TrimEndSkips(s: string, pad: string)
    requires Blank(pad) && (s == [] || !IsSpace(s[|s| - 1]))
    ensures TrimEnd(s + pad) == s
  {
    if pad == [] {
      assert s + pad == s;
    } else {
      var t := s + pad;
      assert t[|t| - 1] == pad[|pad| - 1] && IsSpace(pad[|pad| - 1]);
      assert t[..|t| - 1] == s + pad[..|pad| - 1];
      assert TrimEnd(t) == TrimEnd(s + pad[..|pad| - 1]);
      TrimEndSkips(s, pad[..|pad| - 1]);
    }
  }

  /** Padding a trimmed text with white space on both sides is undone by `trim`. */
  lemma TrimUndoesPadding(before: string, s: string, after: string)
    requires Blank(before) && Blank(after) && Trimmed(s)
    ensures Trim(before + s + after) == s
  {
    if s == [] {
      assert before + s + after == before + after;
      assert Blank(before + after);
      TrimStartSkips(before + after, []);
      assert before + after + [] == before + after;
    } else {
      assert before + s + after == before + (s + after);
      TrimStartSkips(before, s + after);
      TrimEndSkips(s, after);
    }
  }

  lemma {:induction false} TrimStartSuffix(s: string)
    ensures TrimStart(s) == [] || !IsSpace(TrimStart(s)[0])
    ensures TrimStart(s) != [] && s != [] ==> TrimStart(s)[|TrimStart(s)| - 1] == s[|s| - 1]
    ensures |TrimStart(s)| <= |s| && TrimStart(s) == s[|s| - |TrimStart(s)|..]
    ensures TrimStart(s) == [] <==> Blank(s)
  {
    if s != [] && IsSpace(s[0]) {
      TrimStartSuffix(s[1..]);
      assert Blank(s) <==> Blank(s[1..]) by {
        assert forall i :: 0 <= i < |s[1..]| ==> s[1..][i] == s[i + 1];
        if Blank(s[1..]) {
          forall i | 0 <= i < |s| ensures IsSpace(s[i]) {
            if i > 0 {
              assert s[1..][i - 1] == s[i];
            }
          }
        }
      }
    }
  }

  lemma {:induction false} TrimEndPrefix(s: string)
    ensures TrimEnd(s) <= s
    ensures TrimEnd(s) == [] || !IsSpace(TrimEnd(s)[|TrimEnd(s)| - 1])
    ensures s != [] && !IsSpace(s[0]) ==> TrimEnd(s) != [] && TrimEnd(s)[0] == s[0]
  {
    if s != [] && IsSpace(s[|s| - 1]) {
      TrimEndPrefix(s[..|s| - 1]);
    }
  }

  lemma TrimIsTrimmed(s: string)
    ensures Trimmed(Trim(s))
    ensures Trim(s) == [] <==> Blank(s)
  {
    TrimStartSuffix(s);
    TrimEndPrefix(TrimStart(s));
  }

  // ---------------------------------------------------------------------------------------
  // Lines
  // ---------------------------------------------------------------------------------------

  predicate OneLine(s: string) {
    '\n' !in s
  }

  function LineEnd(s: string): (i: nat)
    ensures i <= |s| && OneLine(s[..i]) && (i < |s| ==> s[i] == '\n')
  {
    if s == [] || s[0] == '\n' then 0
    else
      assert s[..1 + LineEnd(s[1..])] == [s[0]] + s[1..][..LineEnd(s[1..])];
      1 + LineEnd(s[1..])
  }

  /** `split('\n')`. */
  function Lines(s: string): (r: seq<string>)
    ensures r != []
    decreases |s|
  {
    var i := LineEnd(s);
    if i == |s| then [s] else [s[..i]] + Lines(s[i + 1..])
  }

  /** Each line with its terminator. */
  function Unlines(lines: seq<string>): string {
    if lines == [] then "" else lines[0] + "\n" + Unlines(lines[1..])
  }

  lemma Rejoin(s: string, i: nat)
    requires i < |s| && s[i] == '\n'
    ensures s + "\n" == s[..i] + "\n" + (s[i + 1..] + "\n")
  {
    assert s == s[..i] + ([s[i]] + s[i + 1..]);
  }

  lemma {:induction false} UnlinesLines(s: string)
    ensures Unlines(Lines(s)) == s + "\n"
    decreases |s|
  {
    var i := LineEnd(s);
    if i == |s| {
      assert [s][1..] == [];
      assert Unlines([s]) == s + "\n" + [];
    } else {
      var first, rest := s[..i], Lines(s[i + 1..]);
      UnlinesLines(s[i + 1..]);
      assert ([first] + rest)[1..] == rest;
      Rejoin(s, i);
    }
  }

  lemma {:induction false} UnlinesAppend(a: seq<string>, b: seq<string>)
    ensures Unlines(a + b) == Unlines(a) + Unlines(b)
  {
    if a == [] {
      assert a + b == b;
    } else {
      assert (a + b)[1..] == a[1..] + b;
      UnlinesAppend(a[1..], b);
    }
  }

  lemma {:induction false} OneLineEnd(s: string)
    requires OneLine(s)
    ensures LineEnd(s) == |s|
  {
    if s != [] {
      assert s[0] in s;
      OneLineEnd(s[1..]);
    }
  }

  lemma LinesOfOne(s: string)
    requires OneLine(s)
    ensures Lines(s) == [s]
  {
    OneLineEnd(s);
  }

  // ---------------------------------------------------------------------------------------
  // Words and substrings
  // ---------------------------------------------------------------------------------------

  predicate NoSpace(s: string) {
    forall i :: 0 <= i < |s| ==> !IsSpace(s[i])
  }

  function WordEnd(s: string): (i: nat)
    ensures i <= |s|
    ensures s != [] && !IsSpace(s[0]) ==> i > 0
  {
    if s == [] || IsSpace(s[0]) then 0 else 1 + WordEnd(s[1..])
  }

  /** The maximal runs of non-space characters. */
  function Words(s: string): seq<string>
    decreases |s|
  {
    if s == [] then []
    else if IsSpace(s[0]) then Words(s[1..])
    else [s[..WordEnd(s)]] + Words(s[WordEnd(s)..])
  }

  lemma {:induction false} WordEndAt(w: string, rest: string)
    requires NoSpace(w) && (rest == [] || IsSpace(rest[0]))
    ensures WordEnd(w + rest) == |w|
  {
    if w == [] {
      assert w + rest == rest;
    } else {
      assert (w + rest)[0] == w[0] && (w + rest)[1..] == w[1..] + rest;
      assert forall i :: 0 <= i < |w[1..]| ==> w[1..][i] == w[i + 1];
      WordEndAt(w[1..], rest);
    }
  }

  lemma WordsCons(w: string, rest: string)
    requires w != [] && NoSpace(w) && (rest == [] || IsSpace(rest[0]))
    ensures Words(w + rest) == [w] + Words(rest)
  {
    WordEndAt(w, rest);
    assert (w + rest)[0] == w[0];
    assert (w + rest)[..|w|] == w && (w + rest)[|w|..] == rest;
  }

  lemma WordsSkip(s: string)
    ensures Words(" " + s) == Words(s)
  {
    assert (" " + s)[1..] == s;
  }

  /** `indexOf`. */
  function Find(s: string, p: string): Option<nat> {
    if p <= s then Some(0)
    else if s == [] then None
    else
      match Find(s[1..], p)
      case None => None
      case Some(i) => Some(i + 1)
  }

  lemma {:induction false} FindFirst(s: string, p: string)
    ensures Find(s, p).Some? ==> OccursAt(s, p, Find(s, p).value)
    ensures Find(s, p).None? ==> forall i: nat :: i <= |s| ==> !OccursAt(s, p, i)
  {
    if !(p <= s) && s != [] {
      FindFirst(s[1..], p);
      var r := Find(s[1..], p);
      if r.Some? {
        assert s[1..][r.value..r.value + |p|] == s[r.value + 1..r.value + 1 + |p|];
      } else {
        forall i: nat | i <= |s| ensures !OccursAt(s, p, i) {
          if i == 0 {
            assert |p| <= |s| ==> s[0..|p|] == s[..|p|];
          } else if i + |p| <= |s| {
            assert s[1..][i - 1..i - 1 + |p|] == s[i..i + |p|];
            assert !OccursAt(s[1..], p, i - 1);
          }
        }
      }
    } else if !(p <= s) {
      assert !OccursAt(s, p, 0);
    }
  }

  lemma FindNone(s: string, p: string)
    requires !Contains(s, p)
    ensures Find(s, p).None?
  {
    FindFirst(s, p);
  }
}
