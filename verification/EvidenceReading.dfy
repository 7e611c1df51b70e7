/**
 What the parser reads, for any document: which pairs carry signal, where fields and sections stand,
 and the printed text.
 */
module EvidenceReading {
  import opened Common
  import opened Text
  import opened EvidenceDoc
  import opened EvidenceTheorems
  import opened EvidenceRoundTrip

  // ---------------------------------------------------------------------------------------
  // Texts as words and the white space between them
  // ---------------------------------------------------------------------------------------

  /** Words with white space before, between and after them. */
  function Spaced(words: seq<string>, gaps: seq<string>): string
    requires |gaps| == |words| + 1
  {
    if words == [] then gaps[0] else gaps[0] + (words[0] + Spaced(words[1..], gaps[1..]))
  }

  predicate ProperWord(w: string) {
    w != "" && NoSpace(w)
  }

  /** Real words, kept apart by real white space. */
  predicate Proper(words: seq<string>, gaps: seq<string>) {
    && |gaps| == |words| + 1
    && (forall i :: 0 <= i < |words| ==> ProperWord(words[i]))
    && (forall i :: 0 <= i < |gaps| ==> Blank(gaps[i]))
    && (forall i :: 1 <= i < |words| ==> gaps[i] != "")
  }

  lemma ProperTail(words: seq<string>, gaps: seq<string>)
    requires Proper(words, gaps) && words != []
    ensures Proper(words[1..], gaps[1..])
  {}

  lemma {:induction false} WordsSkipBlank(pad: string, s: string)
    requires Blank(pad)
    ensures Words(pad + s) == Words(s)
  {
    if pad == [] {
      assert pad + s == s;
    } else {
      assert (pad + s)[0] == pad[0] && (pad + s)[1..] == pad[1..] + s;
      WordsSkipBlank(pad[1..], s);
    }
  }

  lemma SpacedStart(words: seq<string>, gaps: seq<string>)
    requires Proper(words, gaps) && (words == [] || gaps[0] != "")
    ensures Spaced(words, gaps) == "" || IsSpace(Spaced(words, gaps)[0])
  {}

  /** The words of such a text are its words. */
  lemma {:induction false} WordsOfSpaced(words: seq<string>, gaps: seq<string>)
    requires Proper(words, gaps)
    ensures Words(Spaced(words, gaps)) == words
  {
    if words == [] {
      WordsSkipBlank(gaps[0], "");
      assert gaps[0] + "" == gaps[0];
    } else {
      var rest := Spaced(words[1..], gaps[1..]);
      ProperTail(words, gaps);
      WordsOfSpaced(words[1..], gaps[1..]);
      SpacedStart(words[1..], gaps[1..]);
      WordsCons(words[0], rest);
      WordsSkipBlank(gaps[0], words[0] + rest);
    }
  }

  lemma ProperCons(gap: string, word: string, words: seq<string>, gaps: seq<string>)
    requires Proper(words, gaps) && Blank(gap) && ProperWord(word) && (words == [] || gaps[0] != "")
    ensures Proper([word] + words, [gap] + gaps)
    ensures Spaced([word] + words, [gap] + gaps) == gap + (word + Spaced(words, gaps))
  {
    assert ([word] + words)[1..] == words && ([gap] + gaps)[1..] == gaps;
  }

  lemma {:induction false} WordEndSplits(s: string)
    ensures NoSpace(s[..WordEnd(s)]) && (WordEnd(s) < |s| ==> IsSpace(s[WordEnd(s)]))
  {
    if s != [] && !IsSpace(s[0]) {
      WordEndSplits(s[1..]);
      assert s[..WordEnd(s)] == [s[0]] + s[1..][..WordEnd(s[1..])];
    }
  }

  /** Every text is one, and begins with white space exactly if its first gap is not empty. */
  lemma {:induction false} EveryTextIsSpaced(s: string) returns (words: seq<string>, gaps: seq<string>)
    ensures Proper(words, gaps) && Spaced(words, gaps) == s
    ensures s != "" && IsSpace(s[0]) ==> gaps[0] != ""
    decreases |s|
  {
    if s == "" {
      words, gaps := [], [""];
    } else if IsSpace(s[0]) {
      words, gaps := EveryTextIsSpaced(s[1..]);
      gaps := gaps[0 := [s[0]] + gaps[0]];
      assert s == [s[0]] + s[1..];
    } else {
      var n := WordEnd(s);
      WordEndSplits(s);
      words, gaps := EveryTextIsSpaced(s[n..]);
      ProperCons("", s[..n], words, gaps);
      words, gaps := [s[..n]] + words, [""] + gaps;
      assert s == s[..n] + s[n..];
    }
  }

  // ---------------------------------------------------------------------------------------
  // Signal
  // ---------------------------------------------------------------------------------------

  function LowerAll(words: seq<string>): (r: seq<string>)
    ensures |r| == |words|
  {
    seq(|words|, i requires 0 <= i < |words| => ToLower(words[i]))
  }

  lemma LowerKeepsSpace(s: string)
    ensures Blank(s) ==> Blank(ToLower(s))
    ensures NoSpace(s) ==> NoSpace(ToLower(s))
  {}

  lemma {:induction false} LowerSpaced(words: seq<string>, gaps: seq<string>)
    requires Proper(words, gaps)
    ensures Proper(LowerAll(words), LowerAll(gaps))
    ensures ToLower(Spaced(words, gaps)) == Spaced(LowerAll(words), LowerAll(gaps))
  {
    forall i | 0 <= i < |gaps| ensures Blank(LowerAll(gaps)[i]) {
      LowerKeepsSpace(gaps[i]);
    }
    forall i | 0 <= i < |words| ensures ProperWord(LowerAll(words)[i]) {
      LowerKeepsSpace(words[i]);
    }
    if words != [] {
      ProperTail(words, gaps);
      LowerSpaced(words[1..], gaps[1..]);
      assert LowerAll(words)[1..] == LowerAll(words[1..]) && LowerAll(gaps)[1..] == LowerAll(gaps[1..]);
      LowerJoin(gaps[0], words[0], Spaced(words[1..], gaps[1..]));
    }
  }

  lemma LowerJoin(a: string, b: string, c: string)
    ensures ToLower(a + (b + c)) == ToLower(a) + (ToLower(b) + ToLower(c))
  {}

  lemma SpacedBlank(words: seq<string>, gaps: seq<string>)
    requires Proper(words, gaps)
    ensures Blank(Spaced(words, gaps)) <==> words == []
  {
    if words != [] {
      var s := Spaced(words, gaps);
      assert s[|gaps[0]|] == words[0][0];
    }
  }

  /** The shared part of two vocabularies, from none to all. */
  function Overlap(d: set<string>, s: set<string>): real {
    if d + s == {} then 0.0 else |d * s| as real / |d + s| as real
  }

  /**
   A pair carries signal if and only if a body has words, the words differ by more than letter case, and,
   where both have words, at least fifteen percent of their joint vocabulary is shared.
   */
  lemma SignalExactly(draft: seq<string>, gaps: seq<string>, sent: seq<string>, gaps': seq<string>)
    requires Proper(draft, gaps) && Proper(sent, gaps')
    ensures HasSignal(Spaced(draft, gaps), Spaced(sent, gaps')) <==>
              && (draft != [] || sent != []) && LowerAll(draft) != LowerAll(sent)
              && (draft != [] && sent != [] ==>
                    Overlap(set w | w in LowerAll(draft), set w | w in LowerAll(sent)) >= 0.15)
  {
    LowerSpaced(draft, gaps);
    LowerSpaced(sent, gaps');
    WordsOfSpaced(LowerAll(draft), LowerAll(gaps));
    WordsOfSpaced(LowerAll(sent), LowerAll(gaps'));
    SpacedBlank(draft, gaps);
    SpacedBlank(sent, gaps');
    if draft != [] && sent != [] {
      var d, s := set w | w in LowerAll(draft), set w | w in LowerAll(sent);
      assert LowerAll(draft)[0] in d;
      assert WordSet(LowerAll(draft)) == d && WordSet(LowerAll(sent)) == s;
      OverlapMeans(d, s);
    }
  }

  lemma OverlapMeans(d: set<string>, s: set<string>)
    requires d + s != {}
    ensures Overlap(d, s) >= 0.15 <==> 20 * |d * s| >= 3 * |d + s|
  {
    var shared, all := |d * s| as real, |d + s| as real;
    assert all > 0.0;
    Quotient(shared, all);
  }

  lemma Quotient(a: real, b: real)
    requires b > 0.0
    ensures a / b >= 0.15 <==> 20.0 * a >= 3.0 * b
  {
    var q := a / b;
    assert q * b == a;
    if q >= 0.15 {
      assert q * b >= 0.15 * b;
    } else {
      assert q * b < 0.15 * b;
    }
  }

  // ---------------------------------------------------------------------------------------
  // Fields
  // ---------------------------------------------------------------------------------------

  /** The first line that is not blank gives the text. */
  lemma {:induction false} FirstTextIs(lines: seq<Line>, j: nat)
    requires j <= |lines| && (forall i :: 0 <= i < j ==> Blank(lines[i])) && (j < |lines| ==> !Blank(lines[j]))
    ensures FirstText(lines) == if j < |lines| then Trim(lines[j]) else ""
  {
    if lines != [] {
      TrimIsTrimmed(lines[0]);
      if j > 0 {
        FirstTextIs(lines[1..], j - 1);
      }
    }
  }

  /** The stamp of a part: what follows `- sent_at:` on the first line that begins with it. */
  lemma {:induction false} StampExactly(part: Doc, i: nat)
    requires i <= |part| && (forall k :: 0 <= k < i ==> !("- sent_at:" <= part[k]))
    requires i < |part| ==> "- sent_at:" <= part[i]
    ensures SentAtRaw(part) == if i < |part| then FirstText([part[i][10..]] + part[i + 1..]) else ""
  {
    assert |SENT_AT| == 10;
    if i > 0 {
      StampExactly(part[1..], i - 1);
    }
  }

  lemma {:induction false} FindIsFirst(s: string, p: string, o: nat)
    requires OccursAt(s, p, o) && forall q: nat :: q < o ==> !OccursAt(s, p, q)
    ensures Find(s, p) == Some(o)
  {
    assert p <= s <==> OccursAt(s, p, 0);
    if o > 0 {
      assert !OccursAt(s, p, 0);
      assert s[1..][o - 1..o - 1 + |p|] == s[o..o + |p|];
      forall q: nat | q < o - 1 ensures !OccursAt(s[1..], p, q) {
        assert !OccursAt(s, p, q + 1);
        if q + 1 + |p| <= |s| {
          assert s[1..][q..q + |p|] == s[q + 1..q + 1 + |p|];
        }
      }
      FindIsFirst(s[1..], p, o - 1);
    }
  }

  /** A field: what follows the first occurrence of its key, on whatever line and place that is. */
  lemma {:induction false} FieldExactly(lines: seq<Line>, key: string, i: nat, o: nat)
    requires i <= |lines| && (forall k :: 0 <= k < i ==> !Contains(lines[k], key))
    requires i < |lines| ==> OccursAt(lines[i], key, o) && forall p: nat :: p < o ==> !OccursAt(lines[i], key, p)
    ensures FieldValue(lines, key) == if i < |lines| then FirstText([lines[i][o + |key|..]] + lines[i + 1..]) else ""
    ensures After(lines, key) == if i < |lines| then Some([lines[i][o + |key|..]] + lines[i + 1..]) else None
  {
    if lines != [] {
      if i > 0 {
        assert !Contains(lines[0], key);
        FindNone(lines[0], key);
        FieldExactly(lines[1..], key, i - 1, o);
      } else {
        FindIsFirst(lines[0], key, o);
      }
    }
  }

  /** Where a section is cut: at the first line that begins with the terminator, or at the last. */
  lemma {:induction false} CutExactly(lines: seq<Line>, end: string, fromEnd: bool, i: nat)
    requires i <= |lines| && (i < |lines| ==> end <= lines[i])
    requires !fromEnd || i == |lines| ==> forall k :: 0 <= k < i ==> !(end <= lines[k])
    requires fromEnd && i < |lines| ==> forall k :: i < k < |lines| ==> !(end <= lines[k])
    ensures CutAt(lines, end, fromEnd) == if i < |lines| then Some(i) else None
  {
    if lines != [] {
      if i > 0 {
        CutExactly(lines[1..], end, fromEnd, i - 1);
      } else if fromEnd {
        CutNothing(lines[1..], end);
      }
    }
  }

  lemma {:induction false} CutNothing(lines: seq<Line>, end: string)
    requires forall k :: 0 <= k < |lines| ==> !(end <= lines[k])
    ensures CutAt(lines, end, true) == None
  {
    if lines != [] {
      CutNothing(lines[1..], end);
    }
  }

  /** Without its marker on any line a section is empty. */
  lemma NoMarkerNoSection(lines: seq<Line>, start: string, end: string, fromEnd: bool)
    requires forall k :: 0 <= k < |lines| ==> !Contains(lines[k], start)
    ensures SectionOf(lines, start, end, fromEnd) == ""
  {
    FieldExactly(lines, start, |lines|, 0);
  }

  /** A section is the trimmed text between its marker and the terminator. */
  lemma SectionExactly(lines: seq<Line>, start: string, end: string, fromEnd: bool, after: seq<Line>, cut: nat)
    requires After(lines, start) == Some(after)
    requires cut <= |after| && (cut < |after| ==> end <= after[cut])
    requires !fromEnd || cut == |after| ==> forall k :: 0 <= k < cut ==> !(end <= after[k])
    requires fromEnd && cut < |after| ==> forall k :: cut < k < |after| ==> !(end <= after[k])
    ensures SectionOf(lines, start, end, fromEnd) == Trim(Unlines(after[..cut]))
  {
    CutExactly(after, end, fromEnd, cut);
    assert after[..|after|] == after;
  }

  /** The ids in a header: the words after the first `draft … ↔ sent …`. */
  lemma {:induction false} HeaderIdsExactly(words: seq<string>, i: nat)
    requires forall k :: 0 <= k < i && k + 4 < |words| ==>
               !(words[k] == "draft" && words[k + 2] == "↔" && words[k + 3] == "sent")
    requires i + 4 < |words| ==> words[i] == "draft" && words[i + 2] == "↔" && words[i + 3] == "sent"
    ensures HeaderIds(words) == if i + 4 < |words| then Some((words[i + 1], words[i + 4])) else None
  {
    if |words| >= 5 && i > 0 {
      var rest := words[1..];
      assert forall k :: 0 <= k < |rest| ==> rest[k] == words[k + 1];
      HeaderIdsExactly(rest, i - 1);
    }
  }

  // ---------------------------------------------------------------------------------------
  // A whole document
  // ---------------------------------------------------------------------------------------

  /** The pair a block gives: one if its header names two ids and its bodies carry signal, otherwise none. */
  function PairOf(block: Doc): seq<ParsedPair>
    requires block != [] && "## Diff — " <= block[0]
  {
    var lines := [block[0][10..]] + block[1..];
    var ids := HeaderIds(Words(lines[0]));
    var draft := SectionOf(lines, "### Draft", "### Sent", false);
    var sent := SectionOf(lines, "### Sent", "---", true);
    if ids.None? || !HasSignal(draft, sent) then []
    else [ParsedPair(ids.value.0, ids.value.1, FieldValue(lines, "- sent_at:"), FieldValue(lines, "- subject:"),
                     draft, sent)]
  }

  /** A header line with the metadata bullet below it, or below one blank line. */
  predicate IsBoundary(doc: Doc, i: nat) {
    && i < |doc| && "## Diff — " <= doc[i]
    && (if i + 1 < |doc| && doc[i + 1] == "" then i + 2 < |doc| && "- " <= doc[i + 2]
        else i + 1 < |doc| && "- " <= doc[i + 1])
  }

  /** From one boundary to the next, as long as there is one. */
  function PairsFrom(doc: Doc, i: nat): seq<ParsedPair>
    requires i <= |doc|
    decreases |doc| - i
  {
    if i == |doc| then []
    else if !IsBoundary(doc, i) then PairsFrom(doc, i + 1)
    else PairOf(doc[i..BlockEnd(doc, i + 1)]) + PairsFrom(doc, i + 1)
  }

  function BlockEnd(doc: Doc, from: nat): (k: nat)
    requires from <= |doc|
    ensures from <= k <= |doc|
    decreases |doc| - from
  {
    if from == |doc| || IsBoundary(doc, from) then from else BlockEnd(doc, from + 1)
  }

  lemma BoundaryIs(doc: Doc, i: nat)
    ensures IsBoundary(doc, i) <==> Anchored(doc, i)
  {
    if i + 1 < |doc| && doc[i + 1] == "" {
      assert !StartsWith("", BULLET);
    }
  }

  lemma {:induction false} BlockEndIs(doc: Doc, from: nat)
    requires from <= |doc|
    ensures BlockEnd(doc, from) == NextBoundary(doc, from)
    decreases |doc| - from
  {
    BoundaryIs(doc, from);
    if from < |doc| && !IsBoundary(doc, from) {
      BlockEndIs(doc, from + 1);
    }
  }

  lemma {:induction false} NextShift(doc: Doc, k: nat, from: nat)
    requires k <= |doc| && from <= |doc| - k
    ensures NextBoundary(doc[k..], from) == NextBoundary(doc, k + from) - k
    decreases |doc| - k - from
  {
    SuffixAnchors(doc, k, from);
    if from < |doc| - k && !Anchored(doc, k + from) {
      NextShift(doc, k, from + 1);
    }
  }

  lemma {:induction false} PairsSkip(doc: Doc, i: nat)
    requires i <= |doc|
    ensures PairsFrom(doc, i) == PairsFrom(doc, NextBoundary(doc, i))
    decreases |doc| - i
  {
    BoundaryIs(doc, i);
    if i < |doc| && !Anchored(doc, i) {
      PairsSkip(doc, i + 1);
    }
  }

  lemma PartGives(part: Doc)
    requires part != [] && Anchored(part, 0)
    ensures ParseSection(part) == PairOf(part)
  {
    assert |HEADER| == 10;
  }

  lemma SplitFrom(doc: Doc, k: nat)
    requires k < |doc|
    ensures var j := NextBoundary(doc, k + 1);
            Split(doc[k..]) == if j == |doc| then [doc[k..j]] else [doc[k..j]] + Split(doc[j..])
  {
    var rest, j := doc[k..], NextBoundary(doc, k + 1);
    NextShift(doc, k, 1);
    assert rest[..j - k] == doc[k..j] && rest[j - k..] == doc[j..];
    assert rest != [] && NextBoundary(rest, 1) == j - k;
    if j == |doc| {
      assert doc[k..j] == rest;
    }
  }

  lemma PairsFromBlock(doc: Doc, k: nat)
    requires k < |doc| && Anchored(doc, k)
    ensures var j := NextBoundary(doc, k + 1);
            Anchored(doc[k..j], 0) && PairsFrom(doc, k) == ParseSection(doc[k..j]) + PairsFrom(doc, j)
  {
    var j := NextBoundary(doc, k + 1);
    BoundaryIs(doc, k);
    BlockEndIs(doc, k + 1);
    PairsSkip(doc, k + 1);
    BlockKeepsAnchor(doc, k, j);
    PartGives(doc[k..j]);
  }

  lemma BlockKeepsAnchor(doc: Doc, k: nat, j: nat)
    requires k < j <= |doc| && Anchored(doc, k) && (j < |doc| ==> Anchored(doc, j))
    ensures Anchored(doc[k..j], 0)
  {
    SuffixAnchors(doc, k, 0);
    SuffixAnchors(doc, k, j - k);
    AnchorStaysInside(doc[k..], j - k);
    assert doc[k..][..j - k] == doc[k..j];
  }

  lemma {:induction false} ParsedFrom(doc: Doc, k: nat)
    requires k == |doc| || (k < |doc| && Anchored(doc, k))
    ensures ParseParts(Split(doc[k..])) == PairsFrom(doc, k)
    decreases |doc| - k
  {
    if k == |doc| {
      assert doc[k..] == [] && Split(doc[k..]) == [[]];
    } else {
      var j := NextBoundary(doc, k + 1);
      SplitFrom(doc, k);
      PairsFromBlock(doc, k);
      ParsedFrom(doc, j);
      ParseFirst(doc[k..j], if j == |doc| then [] else Split(doc[j..]));
      if j == |doc| {
        assert [doc[k..j]] + [] == [doc[k..j]] && PairsFrom(doc, j) == [];
      }
    }
  }

  lemma ParseFirst(part: Doc, rest: seq<Doc>)
    requires Anchored(part, 0)
    ensures ParseParts([part] + rest) == ParseSection(part) + ParseParts(rest)
  {
    assert ([part] + rest)[1..] == rest;
  }

  /**
   Main result for the parser: the pairs of any document are those of its blocks in order, a block going
   from one boundary to the next; whatever stands before the first boundary gives none.
   */
  lemma ParsedByBoundaries(doc: Doc)
    ensures Parsed(doc) == PairsFrom(doc, 0)
  {
    PairsSkip(doc, 0);
    var k := NextBoundary(doc, 0);
    if k == 0 {
      assert doc[0..] == doc;
      ParsedFrom(doc, 0);
    } else {
      var j := NextBoundary(doc, 1);
      assert j == k by {
        assert !Anchored(doc, 0);
      }
      AnchorStaysInside(doc, k);
      if k < |doc| {
        ParsedFrom(doc, k);
        assert Split(doc) == [doc[..k]] + Split(doc[k..]);
        ParsePreamble(doc[..k], Split(doc[k..]));
      } else {
        assert Split(doc) == [doc] && doc[..k] == doc && [doc] == [doc] + [];
        ParsePreamble(doc, []);
        assert PairsFrom(doc, |doc|) == [];
      }
    }
  }

  /** A cutoff that is no date trims nothing. */
  lemma NoCutoffKeepsAll(doc: Doc, date: string -> Option<int>)
    ensures TrimmedDoc(doc, None, date) == doc
  {}

  // ---------------------------------------------------------------------------------------
  // The printed text
  // ---------------------------------------------------------------------------------------

  /** A whole printed block, line by line, when every field and body is one line. */
  lemma PrintedText(m: DraftMatch, sentBody: string)
    requires OneLine(m.draftId) && OneLine(m.messageId) && OneLine(m.threadId) && m.threadId != ""
    requires OneLine(m.sentAt) && OneLine(m.subject) && OneLine(m.recipients)
    requires OneLine(m.draftBody) && m.draftBody != "" && Text.Trimmed(m.draftBody)
    requires OneLine(sentBody) && sentBody != "" && Text.Trimmed(sentBody)
    ensures FormatDiffBlock(m, sentBody)
         == ["", "## Diff — draft " + m.draftId + " ↔ sent " + m.messageId, "", "- thread_id: " + m.threadId,
             "- sent_at: " + m.sentAt, "- subject: " + m.subject, "- recipients: " + m.recipients,
             "", "### Draft", "", m.draftBody, "", "### Sent", "", sentBody, "", "---"]
  {
    var h := HEADER + HeaderText(m);
    WholeIsTrimmed(m.draftBody);
    WholeIsTrimmed(sentBody);
    HeaderLineIs(m);
    LinesOfOne(h);
    LinesOfOne("- thread_id: " + m.threadId);
    LinesOfOne("- sent_at: " + m.sentAt);
    LinesOfOne("- subject: " + m.subject);
    LinesOfOne("- recipients: " + m.recipients);
    LinesOfOne(m.draftBody);
    LinesOfOne(sentBody);
    Joined(h, "- thread_id: " + m.threadId, "- sent_at: " + m.sentAt, "- subject: " + m.subject,
           "- recipients: " + m.recipients, m.draftBody, sentBody);
  }

  lemma HeaderLineIs(m: DraftMatch)
    requires OneLine(m.draftId) && OneLine(m.messageId)
    ensures HEADER + HeaderText(m) == "## Diff — draft " + m.draftId + " ↔ sent " + m.messageId
    ensures OneLine(HEADER + HeaderText(m))
  {
    assert HEADER + ("draft " + m.draftId + " ↔ sent " + m.messageId)
        == (HEADER + "draft ") + m.draftId + " ↔ sent " + m.messageId;
    assert HEADER + "draft " == "## Diff — draft ";
  }

  lemma Joined(h: Line, t: Line, a: Line, j: Line, r: Line, d: Line, s: Line)
    ensures [""] + [h] + [""] + [t] + [a] + [j] + [r] + ["", DRAFT, ""] + [d] + ["", SENT, ""] + [s] + ["", RULE]
         == ["", h, "", t, a, j, r, "", "### Draft", "", d, "", "### Sent", "", s, "", "---"]
  {}

  /** An empty body and a missing thread are printed as such. */
  lemma PrintedGaps(m: DraftMatch, body: string)
    requires Blank(body)
    ensures BodyText(body) == "_(empty)_"
    ensures m.threadId == "" ==> ThreadLine(m) == "- thread_id: (none)"
  {
    TrimIsTrimmed(body);
    assert "- thread_id: " + "(none)" == "- thread_id: (none)";
  }
}
