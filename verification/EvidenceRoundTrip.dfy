/** Parsing what was printed: any list of blocks reads back as its pairs, whatever the sent bodies hold. */
module EvidenceRoundTrip {
  import opened Common
  import opened Text
  import opened EvidenceDoc
  import opened EvidenceTheorems

  // ---------------------------------------------------------------------------------------
  // What a block must be like
  // ---------------------------------------------------------------------------------------

  function ThreadLine(m: DraftMatch): Line {
    "- thread_id: " + (if m.threadId == "" then "(none)" else m.threadId)
  }

  function SentAtLine(m: DraftMatch): Line {
    "- sent_at: " + m.sentAt
  }

  function SubjectLine(m: DraftMatch): Line {
    "- subject: " + m.subject
  }

  function RecipientsLine(m: DraftMatch): Line {
    "- recipients: " + m.recipients
  }

  predicate NoMarker(line: Line) {
    !Contains(line, DRAFT) && !Contains(line, SENT)
  }

  predicate CleanMetadata(m: DraftMatch) {
    && OneLine(ThreadLine(m)) && OneLine(SentAtLine(m)) && OneLine(SubjectLine(m)) && OneLine(RecipientsLine(m))
    && NoMarker(ThreadLine(m)) && NoMarker(SentAtLine(m)) && NoMarker(SubjectLine(m)) && NoMarker(RecipientsLine(m))
    && !Contains(ThreadLine(m), SENT_AT) && !Contains(ThreadLine(m), SUBJECT) && !Contains(SentAtLine(m), SUBJECT)
  }

  /**
   Ids without white space, metadata on one line each, no section marker in the metadata or in the
   draft, no anchored header inside a body.  The sent body is otherwise free.
   */
  predicate Printable(m: DraftMatch, sentBody: string) {
    && m.draftId != "" && NoSpace(m.draftId) && m.messageId != "" && NoSpace(m.messageId)
    && CleanMetadata(m)
    && Trim(m.sentAt) != ""
    && (forall i :: 0 <= i < |Lines(BodyText(m.draftBody))| ==> !Contains(Lines(BodyText(m.draftBody))[i], SENT))
    && NoneAnchored(Lines(BodyText(m.draftBody)), 0)
    && NoneAnchored(Lines(BodyText(sentBody)), 0)
  }

  // ---------------------------------------------------------------------------------------
  // Reading a field back
  // ---------------------------------------------------------------------------------------

  lemma FieldSkip(line: Line, rest: seq<Line>, key: string)
    requires !Contains(line, key)
    ensures FieldValue([line] + rest, key) == FieldValue(rest, key)
    ensures After([line] + rest, key) == After(rest, key)
  {
    FindNone(line, key);
    assert ([line] + rest)[1..] == rest;
  }

  lemma FieldHit(key: string, v: string, rest: seq<Line>)
    ensures FieldValue([key + v] + rest, key) == FirstText([v] + rest)
    ensures After([key + v] + rest, key) == Some([v] + rest)
  {
    var lines := [key + v] + rest;
    assert key <= key + v;
    assert Find(key + v, key) == Some(0);
    assert (key + v)[0 + |key|..] == v;
    assert lines[1..] == rest;
  }

  lemma TrimSpace(s: string)
    ensures Trim(" " + s) == Trim(s)
  {
    assert (" " + s)[1..] == s;
  }

  lemma ShortHasNone(line: Line, key: string)
    requires |line| < |key|
    ensures !Contains(line, key)
  {}

  // ---------------------------------------------------------------------------------------
  // The header
  // ---------------------------------------------------------------------------------------

  lemma WordThen(w: string, rest: string)
    requires w != "" && NoSpace(w)
    ensures Words(w + (" " + rest)) == [w] + Words(rest)
  {
    WordsCons(w, " " + rest);
    WordsSkip(rest);
  }

  lemma LastWord(w: string)
    requires w != "" && NoSpace(w)
    ensures Words(w) == [w]
  {
    WordsCons(w, "");
    assert w + "" == w;
  }

  lemma FiveWords(v: string, a: string, w: string, x: string, b: string)
    requires v != "" && NoSpace(v) && a != "" && NoSpace(a) && w != "" && NoSpace(w) && x != "" && NoSpace(x)
             && b != "" && NoSpace(b)
    ensures Words(v + (" " + (a + (" " + (w + (" " + (x + (" " + b)))))))) == [v, a, w, x, b]
  {
    var r1 := x + (" " + b);
    var r2 := w + (" " + r1);
    var r3 := a + (" " + r2);
    LastWord(b);
    WordThen(x, b);
    WordThen(w, r1);
    WordThen(a, r2);
    WordThen(v, r3);
    assert [v] + ([a] + ([w] + ([x] + [b]))) == [v, a, w, x, b];
  }

  lemma HeaderShape(a: string, b: string)
    ensures "draft " + a + " ↔ sent " + b == "draft" + (" " + (a + (" " + ("↔" + (" " + ("sent" + (" " + b)))))))
  {
    assert "draft " == "draft" + " ";
    assert " ↔ sent " == " " + ("↔" + (" " + ("sent" + " ")));
    assert " ↔ sent " + b == " " + ("↔" + (" " + ("sent" + (" " + b))));
  }

  lemma HeaderReads(a: string, b: string)
    requires a != "" && NoSpace(a) && b != "" && NoSpace(b)
    ensures HeaderIds(Words("draft " + a + " ↔ sent " + b)) == Some((a, b))
  {
    HeaderShape(a, b);
    FiveWords("draft", a, "↔", "sent", b);
  }

  /** A key with an inner space, not right after `t` or `↔` and not right before `↔`, is not in a header. */
  lemma HeaderHasNoKey(a: string, b: string, key: string, o: nat)
    requires NoSpace(a) && NoSpace(b)
    requires 0 < o < |key| - 1 && key[o] == ' ' && key[o - 1] != 't' && key[o - 1] != '↔' && key[o + 1] != '↔'
    ensures !Contains("draft " + a + " ↔ sent " + b, key)
  {
    var h := "draft " + a + " ↔ sent " + b;
    forall i: nat | i <= |h| ensures !OccursAt(h, key, i) {
      if OccursAt(h, key, i) {
        var at := i + o;
        assert h[i..i + |key|][o] == h[at] && h[i..i + |key|][o - 1] == h[at - 1]
               && h[i..i + |key|][o + 1] == h[at + 1];
        HeaderSpaces(a, b, at);
      }
    }
  }

  lemma HeaderSpaces(a: string, b: string, at: nat)
    requires NoSpace(a) && NoSpace(b)
    requires var h := "draft " + a + " ↔ sent " + b; 0 < at < |h| - 1 && h[at] == ' '
    ensures var h := "draft " + a + " ↔ sent " + b;
            h[at - 1] == 't' || h[at - 1] == '↔' || h[at + 1] == '↔'
  {
    var h := "draft " + a + " ↔ sent " + b;
    assert h == ("draft " + a) + (" ↔ sent " + b);
    assert forall k :: 6 <= k < 6 + |a| ==> h[k] == a[k - 6] && h[k] != ' ';
    assert forall k :: 14 + |a| <= k < |h| ==> h[k] == b[k - 14 - |a|] && h[k] != ' ';
  }

  // ---------------------------------------------------------------------------------------
  // The layout of a printed block
  // ---------------------------------------------------------------------------------------

  function Closing(tail: seq<Line>): seq<Line> {
    ["", RULE] + tail
  }

  function FromSent(sent: seq<Line>, tail: seq<Line>): seq<Line> {
    [""] + ([SENT] + ([""] + (sent + Closing(tail))))
  }

  function FromDraft(draft: seq<Line>, sent: seq<Line>, tail: seq<Line>): seq<Line> {
    [""] + ([DRAFT] + ([""] + (draft + FromSent(sent, tail))))
  }

  function Metadata(m: DraftMatch, rest: seq<Line>): seq<Line> {
    [""] + ([ThreadLine(m)] + ([SentAtLine(m)] + ([SubjectLine(m)] + ([RecipientsLine(m)] + rest))))
  }

  function Bodies(m: DraftMatch, sentBody: string, tail: seq<Line>): seq<Line> {
    FromDraft(Lines(BodyText(m.draftBody)), Lines(BodyText(sentBody)), tail)
  }

  /** The section of a printed block: everything after the header prefix, then `tail`. */
  function Section(m: DraftMatch, sentBody: string, tail: seq<Line>): seq<Line> {
    [HeaderText(m)] + Metadata(m, Bodies(m, sentBody, tail))
  }

  function PartOf(m: DraftMatch, sentBody: string, tail: seq<Line>): Doc {
    [HEADER + HeaderText(m)] + Metadata(m, Bodies(m, sentBody, tail))
  }

  lemma NoSpaceOneLine(s: string)
    requires NoSpace(s)
    ensures OneLine(s)
  {}

  /** The flat list of the printer, regrouped. */
  lemma Regroup(h: Line, t: Line, a: Line, j: Line, r: Line, d: Doc, s: Doc)
    ensures [""] + [h] + [""] + [t] + [a] + [j] + [r] + ["", DRAFT, ""] + d + ["", SENT, ""] + s + ["", RULE]
         == [""] + ([h] + ([""] + ([t] + ([a] + ([j] + ([r] + FromDraft(d, s, [])))))))
  {
    var c := Closing([]);
    assert c == ["", RULE];
    assert FromSent(s, []) == ["", SENT, ""] + s + c;
    assert FromDraft(d, s, []) == ["", DRAFT, ""] + d + ["", SENT, ""] + s + c;
  }

  lemma BlockLayout(m: DraftMatch, sentBody: string)
    requires Printable(m, sentBody)
    ensures FormatDiffBlock(m, sentBody) == [""] + PartOf(m, sentBody, [])
  {
    NoSpaceOneLine(m.draftId);
    NoSpaceOneLine(m.messageId);
    assert OneLine(HEADER + HeaderText(m));
    LinesOfOne(HEADER + HeaderText(m));
    LinesOfOne(ThreadLine(m));
    LinesOfOne(SentAtLine(m));
    LinesOfOne(SubjectLine(m));
    LinesOfOne(RecipientsLine(m));
    Regroup(HEADER + HeaderText(m), ThreadLine(m), SentAtLine(m), SubjectLine(m), RecipientsLine(m),
            Lines(BodyText(m.draftBody)), Lines(BodyText(sentBody)));
  }

  lemma ClosingTail(d: Doc, s: Doc, tail: Doc)
    ensures FromDraft(d, s, []) + tail == FromDraft(d, s, tail)
  {
    assert Closing([]) + tail == Closing(tail);
    assert s + Closing([]) + tail == s + Closing(tail);
    assert FromSent(s, []) + tail == FromSent(s, tail);
    assert d + FromSent(s, []) + tail == d + FromSent(s, tail);
  }

  lemma PartTail(m: DraftMatch, sentBody: string, tail: seq<Line>)
    ensures PartOf(m, sentBody, []) + tail == PartOf(m, sentBody, tail)
  {
    ClosingTail(Lines(BodyText(m.draftBody)), Lines(BodyText(sentBody)), tail);
    var b := Bodies(m, sentBody, []);
    assert Metadata(m, b) + tail == Metadata(m, b + tail);
  }

  lemma PartSection(m: DraftMatch, sentBody: string, tail: seq<Line>)
    ensures StartsWith(PartOf(m, sentBody, tail)[0], HEADER)
    ensures SectionLines(PartOf(m, sentBody, tail)) == Section(m, sentBody, tail)
  {
    var p := PartOf(m, sentBody, tail);
    assert (HEADER + HeaderText(m))[|HEADER|..] == HeaderText(m);
    assert p[1..] == Metadata(m, Bodies(m, sentBody, tail));
  }

  // ---------------------------------------------------------------------------------------
  // Boundaries of a printed block
  // ---------------------------------------------------------------------------------------

  /** Text that cannot complete an anchor begun before it. */
  predicate Closed(q: Doc) {
    q == [] || (!StartsWith(q[0], BULLET) && (q[0] == "" ==> |q| < 2 || !StartsWith(q[1], BULLET)))
  }

  lemma AnchoredClosed(p: Doc, q: Doc, i: nat)
    requires i < |p| && Closed(q)
    ensures Anchored(p + q, i) <==> Anchored(p, i)
  {
    var d := p + q;
    assert i + 1 < |p| ==> d[i + 1] == p[i + 1];
    assert i + 2 < |p| ==> d[i + 2] == p[i + 2];
    assert i + 1 == |p| && q != [] ==> d[i + 1] == q[0];
    assert i + 1 == |p| && |q| > 1 ==> d[i + 2] == q[1];
    assert i + 2 == |p| && q != [] ==> d[i + 2] == q[0];
  }

  lemma NoneAnchoredJoin(p: Doc, q: Doc)
    requires NoneAnchored(q, 0)
    requires (forall i :: 0 <= i < |p| ==> !StartsWith(p[i], HEADER)) || (NoneAnchored(p, 0) && Closed(q))
    ensures NoneAnchored(p + q, 0)
  {
    forall i: nat | i < |p + q| ensures !Anchored(p + q, i) {
      if i < |p| {
        assert (p + q)[i] == p[i];
        if NoneAnchored(p, 0) && Closed(q) {
          AnchoredClosed(p, q, i);
        }
      } else {
        AnchoredAfter(p, q, i - |p|);
      }
    }
  }

  lemma NotHeader(line: Line)
    requires line == "" || line[0] != '#' || (|line| > 2 && line[2] != ' ')
    ensures !StartsWith(line, HEADER)
  {}

  lemma NotBullet(line: Line)
    requires line == "" || line[0] != '-' || (|line| > 1 && line[1] != ' ')
    ensures !StartsWith(line, BULLET)
  {}

  lemma FixedLines()
    ensures !StartsWith("", HEADER) && !StartsWith(RULE, HEADER) && !StartsWith(DRAFT, HEADER)
            && !StartsWith(SENT, HEADER)
    ensures !StartsWith("", BULLET) && !StartsWith(RULE, BULLET) && !StartsWith(DRAFT, BULLET)
            && !StartsWith(SENT, BULLET)
  {
    NotHeader(RULE);
    NotHeader(DRAFT);
    NotHeader(SENT);
    NotBullet(RULE);
    NotBullet(DRAFT);
    NotBullet(SENT);
  }

  predicate AllBlank(tail: seq<Line>) {
    forall i :: 0 <= i < |tail| ==> tail[i] == ""
  }

  lemma PlainLineThen(line: Line, q: Doc)
    requires !StartsWith(line, HEADER) && NoneAnchored(q, 0)
    ensures NoneAnchored([line] + q, 0)
  {
    NoneAnchoredJoin([line], q);
  }

  lemma BodiesHoldNoBoundary(draft: Doc, sent: Doc, tail: seq<Line>)
    requires NoneAnchored(draft, 0) && NoneAnchored(sent, 0) && AllBlank(tail)
    ensures NoneAnchored(FromDraft(draft, sent, tail), 0)
  {
    FixedLines();
    NoneAnchoredJoin(sent, Closing(tail));
    PlainLineThen("", sent + Closing(tail));
    PlainLineThen(SENT, [""] + (sent + Closing(tail)));
    PlainLineThen("", [SENT] + ([""] + (sent + Closing(tail))));
    NoneAnchoredJoin(draft, FromSent(sent, tail));
    PlainLineThen("", draft + FromSent(sent, tail));
    PlainLineThen(DRAFT, [""] + (draft + FromSent(sent, tail)));
    PlainLineThen("", [DRAFT] + ([""] + (draft + FromSent(sent, tail))));
  }

  lemma MetadataLines(m: DraftMatch)
    ensures StartsWith(ThreadLine(m), BULLET) && !StartsWith(ThreadLine(m), HEADER)
            && !StartsWith(SentAtLine(m), HEADER)
    ensures !StartsWith(SubjectLine(m), HEADER) && !StartsWith(RecipientsLine(m), HEADER)
  {
    assert ThreadLine(m)[0] == '-' && ThreadLine(m)[1] == ' ';
    assert SentAtLine(m)[0] == '-' && SubjectLine(m)[0] == '-' && RecipientsLine(m)[0] == '-';
    NotHeader(ThreadLine(m));
    NotHeader(SentAtLine(m));
    NotHeader(SubjectLine(m));
    NotHeader(RecipientsLine(m));
  }

  lemma MetadataHoldsNoBoundary(m: DraftMatch, rest: Doc)
    requires NoneAnchored(rest, 0)
    ensures NoneAnchored(Metadata(m, rest), 0)
  {
    FixedLines();
    MetadataLines(m);
    var r4 := [RecipientsLine(m)] + rest;
    var r3 := [SubjectLine(m)] + r4;
    var r2 := [SentAtLine(m)] + r3;
    PlainLineThen(RecipientsLine(m), rest);
    PlainLineThen(SubjectLine(m), r4);
    PlainLineThen(SentAtLine(m), r3);
    PlainLineThen(ThreadLine(m), r2);
    PlainLineThen("", [ThreadLine(m)] + r2);
  }

  /** A printed block is one block: anchored at its header and nowhere else. */
  lemma PartIsBlock(m: DraftMatch, sentBody: string, tail: seq<Line>)
    requires Printable(m, sentBody) && AllBlank(tail)
    ensures IsBlock(PartOf(m, sentBody, tail))
  {
    var p := PartOf(m, sentBody, tail);
    var rest := Metadata(m, Bodies(m, sentBody, tail));
    BodiesHoldNoBoundary(Lines(BodyText(m.draftBody)), Lines(BodyText(sentBody)), tail);
    MetadataHoldsNoBoundary(m, Bodies(m, sentBody, tail));
    MetadataLines(m);
    assert p[0][..|HEADER|] == HEADER;
    assert p[1] == "" && p[2] == ThreadLine(m);
    forall i: nat | 1 <= i < |p| ensures !Anchored(p, i) {
      AnchoredAfter([HEADER + HeaderText(m)], rest, i - 1);
    }
  }

  // ---------------------------------------------------------------------------------------
  // Reading one block back
  // ---------------------------------------------------------------------------------------

  lemma {:induction false} CutFirst(pre: seq<Line>, line: Line, post: seq<Line>, end: string)
    requires (forall i :: 0 <= i < |pre| ==> !StartsWith(pre[i], end)) && StartsWith(line, end)
    ensures CutAt(pre + ([line] + post), end, false) == Some(|pre|)
  {
    var all := pre + ([line] + post);
    if pre == [] {
      assert all[0] == line;
    } else {
      assert all[0] == pre[0] && all[1..] == pre[1..] + ([line] + post);
      CutFirst(pre[1..], line, post, end);
    }
  }

  lemma {:induction false} CutNone(lines: seq<Line>, end: string, fromEnd: bool)
    requires forall i :: 0 <= i < |lines| ==> !StartsWith(lines[i], end)
    ensures CutAt(lines, end, fromEnd).None?
  {
    if lines != [] {
      CutNone(lines[1..], end, fromEnd);
    }
  }

  lemma {:induction false} CutLast(pre: seq<Line>, line: Line, post: seq<Line>, end: string)
    requires (forall i :: 0 <= i < |post| ==> !StartsWith(post[i], end)) && StartsWith(line, end)
    ensures CutAt(pre + ([line] + post), end, true) == Some(|pre|)
  {
    var all := pre + ([line] + post);
    if pre == [] {
      assert all[0] == line && all[1..] == post;
      CutNone(post, end, true);
    } else {
      assert all[0] == pre[0] && all[1..] == pre[1..] + ([line] + post);
      CutLast(pre[1..], line, post, end);
    }
  }

  lemma UnlinesBlank()
    ensures Unlines([""]) == "\n" && Unlines(["", ""]) == "\n\n"
  {
    assert [""][1..] == [] && ["", ""][1..] == [""];
    assert Unlines([""]) == "" + "\n" + Unlines([]);
    assert Unlines(["", ""]) == "" + "\n" + Unlines([""]);
  }

  lemma BodyReads(b: string)
    requires Text.Trimmed(b)
    ensures Trim(Unlines(["", ""] + (Lines(b) + [""]))) == b
  {
    UnlinesAppend(["", ""], Lines(b) + [""]);
    UnlinesAppend(Lines(b), [""]);
    UnlinesLines(b);
    UnlinesBlank();
    assert "\n\n" + ((b + "\n") + "\n") == "\n\n" + b + "\n\n";
    TrimUndoesPadding("\n\n", b, "\n\n");
  }

  lemma BodyTextTrimmed(body: string)
    ensures Text.Trimmed(BodyText(body)) && BodyText(body) != ""
  {
    TrimIsTrimmed(body);
  }

  /** Past the header and metadata, both section markers are first found on their own lines. */
  lemma SkipMetadata(m: DraftMatch, sentBody: string, rest: seq<Line>, key: string)
    requires Printable(m, sentBody) && (key == DRAFT || key == SENT)
    ensures After([HeaderText(m)] + Metadata(m, rest), key) == After(rest, key)
  {
    HeaderHasNoKey(m.draftId, m.messageId, key, 3);
    ShortHasNone("", key);
    var r4 := [RecipientsLine(m)] + rest;
    var r3 := [SubjectLine(m)] + r4;
    var r2 := [SentAtLine(m)] + r3;
    var r1 := [ThreadLine(m)] + r2;
    FieldSkip(RecipientsLine(m), rest, key);
    FieldSkip(SubjectLine(m), r4, key);
    FieldSkip(SentAtLine(m), r3, key);
    FieldSkip(ThreadLine(m), r2, key);
    FieldSkip("", r1, key);
    FieldSkip(HeaderText(m), [""] + r1, key);
  }

  /** A marker on its own line, after a blank one, is where the section starts. */
  lemma MarkerStarts(key: string, body: seq<Line>)
    requires key != ""
    ensures After([""] + ([key] + ([""] + body)), key) == Some(["", ""] + body)
  {
    ShortHasNone("", key);
    FieldSkip("", [key] + ([""] + body), key);
    FieldHit(key, "", [""] + body);
    assert key + "" == key;
    assert [""] + ([""] + body) == ["", ""] + body;
  }

  lemma {:induction false} SkipLines(lines: seq<Line>, rest: seq<Line>, key: string)
    requires forall i :: 0 <= i < |lines| ==> !Contains(lines[i], key)
    ensures After(lines + rest, key) == After(rest, key)
  {
    if lines == [] {
      assert lines + rest == rest;
    } else {
      assert lines + rest == [lines[0]] + (lines[1..] + rest);
      FieldSkip(lines[0], lines[1..] + rest, key);
      SkipLines(lines[1..], rest, key);
    }
  }

  lemma DraftAfter(m: DraftMatch, sentBody: string, tail: seq<Line>)
    requires Printable(m, sentBody)
    ensures After(Section(m, sentBody, tail), DRAFT)
         == Some(["", ""] + (Lines(BodyText(m.draftBody)) + FromSent(Lines(BodyText(sentBody)), tail)))
  {
    SkipMetadata(m, sentBody, Bodies(m, sentBody, tail), DRAFT);
    MarkerStarts(DRAFT, Lines(BodyText(m.draftBody)) + FromSent(Lines(BodyText(sentBody)), tail));
  }

  lemma DraftCut(d: seq<Line>, s: seq<Line>, tail: seq<Line>)
    requires forall i :: 0 <= i < |d| ==> !Contains(d[i], SENT)
    ensures var after := ["", ""] + (d + FromSent(s, tail));
            var pre := ["", ""] + (d + [""]);
            CutAt(after, SENT, false) == Some(|pre|) && |pre| <= |after| && after[..|pre|] == pre
  {
    var pre := ["", ""] + (d + [""]);
    var post := [""] + (s + Closing(tail));
    assert d + FromSent(s, tail) == (d + [""]) + ([SENT] + post);
    assert ["", ""] + (d + FromSent(s, tail)) == pre + ([SENT] + post);
    assert !StartsWith("", SENT);
    forall i | 0 <= i < |pre| ensures !StartsWith(pre[i], SENT) {
      if 2 <= i < 2 + |d| {
        assert pre[i] == d[i - 2];
        StartsWithMarker(d[i - 2]);
      } else {
        assert pre[i] == "";
      }
    }
    CutFirst(pre, SENT, post, SENT);
  }

  lemma StartsWithMarker(line: Line)
    requires !Contains(line, SENT)
    ensures !StartsWith(line, SENT)
  {
    assert StartsWith(line, SENT) ==> OccursAt(line, SENT, 0);
  }

  lemma DraftReads(m: DraftMatch, sentBody: string, tail: seq<Line>)
    requires Printable(m, sentBody)
    ensures SectionOf(Section(m, sentBody, tail), DRAFT, SENT, false) == BodyText(m.draftBody)
  {
    DraftAfter(m, sentBody, tail);
    DraftCut(Lines(BodyText(m.draftBody)), Lines(BodyText(sentBody)), tail);
    BodyTextTrimmed(m.draftBody);
    BodyReads(BodyText(m.draftBody));
  }

  lemma DraftIsNotSent()
    ensures !Contains(DRAFT, SENT)
  {
    assert DRAFT[0..8][4] == 'D' && DRAFT[1..9][2] == ' ' && SENT[4] == 'S' && SENT[2] == '#';
    assert forall i: nat :: i <= |DRAFT| && OccursAt(DRAFT, SENT, i) ==> i == 0 || i == 1;
  }

  lemma SentAfter(m: DraftMatch, sentBody: string, tail: seq<Line>)
    requires Printable(m, sentBody)
    ensures After(Section(m, sentBody, tail), SENT) == Some(["", ""] + (Lines(BodyText(sentBody)) + Closing(tail)))
  {
    var d, s := Lines(BodyText(m.draftBody)), Lines(BodyText(sentBody));
    var rest := d + FromSent(s, tail);
    SkipMetadata(m, sentBody, Bodies(m, sentBody, tail), SENT);
    ShortHasNone("", SENT);
    DraftIsNotSent();
    FieldSkip("", [DRAFT] + ([""] + rest), SENT);
    FieldSkip(DRAFT, [""] + rest, SENT);
    FieldSkip("", rest, SENT);
    SkipLines(d, FromSent(s, tail), SENT);
    MarkerStarts(SENT, s + Closing(tail));
  }

  lemma SentCut(s: seq<Line>, tail: seq<Line>)
    requires AllBlank(tail)
    ensures var after := ["", ""] + (s + Closing(tail));
            var pre := ["", ""] + (s + [""]);
            CutAt(after, RULE, true) == Some(|pre|) && |pre| <= |after| && after[..|pre|] == pre
  {
    var pre := ["", ""] + (s + [""]);
    assert ["", ""] + (s + Closing(tail)) == pre + ([RULE] + tail);
    assert !StartsWith("", RULE);
    CutLast(pre, RULE, tail, RULE);
  }

  lemma SentReads(m: DraftMatch, sentBody: string, tail: seq<Line>)
    requires Printable(m, sentBody) && AllBlank(tail)
    ensures SectionOf(Section(m, sentBody, tail), SENT, RULE, true) == BodyText(sentBody)
  {
    SentAfter(m, sentBody, tail);
    SentCut(Lines(BodyText(sentBody)), tail);
    BodyTextTrimmed(sentBody);
    BodyReads(BodyText(sentBody));
  }

  /** A key on the third line after the header, at its start. */
  lemma FieldBelow(h: Line, t: Line, key: string, v: string, rest: seq<Line>)
    requires key != "" && !Contains(h, key) && !Contains(t, key)
    ensures FieldValue([h] + ([""] + ([t] + ([key + v] + rest))), key) == FirstText([v] + rest)
  {
    var r1 := [key + v] + rest;
    var r2 := [t] + r1;
    ShortHasNone("", key);
    FieldSkip(h, [""] + r2, key);
    FieldSkip("", r2, key);
    FieldSkip(t, r1, key);
    FieldHit(key, v, rest);
  }

  lemma SentAtReads(m: DraftMatch, sentBody: string, tail: seq<Line>)
    requires Printable(m, sentBody)
    ensures FieldValue(Section(m, sentBody, tail), SENT_AT) == Trim(m.sentAt)
  {
    var r3 := [SubjectLine(m)] + ([RecipientsLine(m)] + Bodies(m, sentBody, tail));
    HeaderHasNoKey(m.draftId, m.messageId, SENT_AT, 1);
    assert SentAtLine(m) == SENT_AT + (" " + m.sentAt);
    FieldBelow(HeaderText(m), ThreadLine(m), SENT_AT, " " + m.sentAt, r3);
    FirstTextSpaced(m.sentAt, r3);
  }

  lemma FirstTextSpaced(v: string, rest: seq<Line>)
    ensures FirstText([" " + v] + rest) == if Trim(v) != "" then Trim(v) else FirstText(rest)
  {
    TrimSpace(v);
    var l := [" " + v] + rest;
    assert l[0] == " " + v && l[1..] == rest;
  }

  lemma FieldFarBelow(h: Line, t: Line, a: Line, key: string, v: string, rest: seq<Line>)
    requires key != "" && !Contains(h, key) && !Contains(t, key) && !Contains(a, key)
    ensures FieldValue([h] + ([""] + ([t] + ([a] + ([key + v] + rest)))), key) == FirstText([v] + rest)
  {
    var r1 := [key + v] + rest;
    var r2 := [a] + r1;
    var r3 := [t] + r2;
    ShortHasNone("", key);
    FieldSkip(h, [""] + r3, key);
    FieldSkip("", r3, key);
    FieldSkip(t, r2, key);
    FieldSkip(a, r1, key);
    FieldHit(key, v, rest);
  }

  lemma RecipientsNotBlank(m: DraftMatch, rest: seq<Line>)
    ensures Trim(RecipientsLine(m)) != ""
    ensures FirstText([RecipientsLine(m)] + rest) == Trim(RecipientsLine(m))
  {
    TrimIsTrimmed(RecipientsLine(m));
    assert RecipientsLine(m)[0] == '-';
    assert ([RecipientsLine(m)] + rest)[0] == RecipientsLine(m);
  }

  /** A blank subject is not read back as blank: the pattern runs on into the recipients line. */
  lemma SubjectReads(m: DraftMatch, sentBody: string, tail: seq<Line>)
    requires Printable(m, sentBody)
    ensures FieldValue(Section(m, sentBody, tail), SUBJECT)
         == if Trim(m.subject) != "" then Trim(m.subject) else Trim(RecipientsLine(m))
    ensures Trim(RecipientsLine(m)) != ""
  {
    var bodies := Bodies(m, sentBody, tail);
    HeaderHasNoKey(m.draftId, m.messageId, SUBJECT, 1);
    assert SubjectLine(m) == SUBJECT + (" " + m.subject);
    FieldFarBelow(HeaderText(m), ThreadLine(m), SentAtLine(m), SUBJECT, " " + m.subject, [RecipientsLine(m)] + bodies);
    FirstTextSpaced(m.subject, [RecipientsLine(m)] + bodies);
    RecipientsNotBlank(m, bodies);
  }

  /** What a block reads back as; nothing when the pair carries no signal. */
  function Expected(m: DraftMatch, sentBody: string, subject: string): seq<ParsedPair> {
    if HasSignal(BodyText(m.draftBody), BodyText(sentBody))
    then [ParsedPair(m.draftId, m.messageId, Trim(m.sentAt), subject, BodyText(m.draftBody), BodyText(sentBody))]
    else []
  }

  function SubjectRead(m: DraftMatch): string {
    if Trim(m.subject) != "" then Trim(m.subject) else Trim(RecipientsLine(m))
  }

  lemma PartReads(m: DraftMatch, sentBody: string, tail: seq<Line>)
    requires Printable(m, sentBody) && AllBlank(tail)
    ensures StartsWith(PartOf(m, sentBody, tail)[0], HEADER)
    ensures ParseSection(PartOf(m, sentBody, tail)) == Expected(m, sentBody, SubjectRead(m))
  {
    PartSection(m, sentBody, tail);
    HeaderReads(m.draftId, m.messageId);
    DraftReads(m, sentBody, tail);
    SentReads(m, sentBody, tail);
    SentAtReads(m, sentBody, tail);
    SubjectReads(m, sentBody, tail);
  }

  // ---------------------------------------------------------------------------------------
  // Reading a whole document back
  // ---------------------------------------------------------------------------------------

  type Sent = (DraftMatch, string)

  function Print(items: seq<Sent>): Doc {
    if items == [] then [] else FormatDiffBlock(items[0].0, items[0].1) + Print(items[1..])
  }

  predicate AllPrintable(items: seq<Sent>) {
    forall i :: 0 <= i < |items| ==> Printable(items[i].0, items[i].1)
  }

  /** The parts the printed document splits into: a block also takes the blank line the next one opens with. */
  function PartsOf(items: seq<Sent>): seq<Doc> {
    if items == [] then []
    else [PartOf(items[0].0, items[0].1, if |items| > 1 then [""] else [])] + PartsOf(items[1..])
  }

  function ExpectedAll(items: seq<Sent>): seq<ParsedPair> {
    if items == [] then []
    else Expected(items[0].0, items[0].1, SubjectRead(items[0].0)) + ExpectedAll(items[1..])
  }

  lemma FlattenCons(p: Doc, rest: seq<Doc>)
    ensures Flatten([p] + rest) == p + Flatten(rest)
  {
    assert ([p] + rest)[1..] == rest;
  }

  lemma JoinBlocks(p: Doc, q: Doc)
    ensures ([""] + p) + ([""] + q) == [""] + ((p + [""]) + q)
  {}

  lemma {:induction false} PartsAreBlocks(items: seq<Sent>)
    requires AllPrintable(items)
    ensures forall k :: 0 <= k < |PartsOf(items)| ==> IsBlock(PartsOf(items)[k])
  {
    if items != [] {
      PartIsBlock(items[0].0, items[0].1, if |items| > 1 then [""] else []);
      assert forall i :: 0 <= i < |items[1..]| ==> items[1..][i] == items[i + 1];
      PartsAreBlocks(items[1..]);
    }
  }

  lemma {:induction false} PrintedParts(items: seq<Sent>)
    requires AllPrintable(items) && items != []
    ensures Print(items) == [""] + Flatten(PartsOf(items))
  {
    var m, b := items[0].0, items[0].1;
    var p := PartOf(m, b, []);
    BlockLayout(m, b);
    if |items| > 1 {
      assert forall i :: 0 <= i < |items[1..]| ==> items[1..][i] == items[i + 1];
      PrintedParts(items[1..]);
      PartTail(m, b, [""]);
      FlattenCons(PartOf(m, b, [""]), PartsOf(items[1..]));
      JoinBlocks(p, Flatten(PartsOf(items[1..])));
    } else {
      assert items[1..] == [];
      FlattenCons(p, []);
      assert Print(items) == ([""] + p) + [];
    }
  }

  lemma {:induction false} PartsRead(items: seq<Sent>)
    requires AllPrintable(items)
    ensures ParseParts(PartsOf(items)) == ExpectedAll(items)
  {
    if items != [] {
      var m, b := items[0].0, items[0].1;
      var tail := if |items| > 1 then [""] else [];
      PartReads(m, b, tail);
      PartIsBlock(m, b, tail);
      assert forall i :: 0 <= i < |items[1..]| ==> items[1..][i] == items[i + 1];
      PartsRead(items[1..]);
      var rest := PartsOf(items[1..]);
      assert ([PartOf(m, b, tail)] + rest)[1..] == rest;
    }
  }

  lemma PreambleAlone(preamble: Doc)
    requires NoneAnchored(preamble, 0)
    ensures NoneAnchored(preamble + [""], 0)
  {
    FixedLines();
    NoneAnchoredJoin(preamble, [""]);
  }

  lemma PreambleWellSplit(first: Doc, blocks: seq<Doc>)
    requires first != [] && NoneAnchored(first, 0) && forall k :: 0 <= k < |blocks| ==> IsBlock(blocks[k])
    ensures WellSplit([first] + blocks)
  {
    var parts := [first] + blocks;
    forall k | 1 <= k < |parts| ensures IsBlock(parts[k]) {
      assert parts[k] == blocks[k - 1];
    }
  }

  lemma SplitAfterPreamble(preamble: Doc, printed: Doc, blocks: seq<Doc>)
    requires NoneAnchored(preamble, 0) && printed == [""] + Flatten(blocks)
    requires forall k :: 0 <= k < |blocks| ==> IsBlock(blocks[k])
    ensures Split(preamble + printed) == [preamble + [""]] + blocks
  {
    PreambleAlone(preamble);
    PreambleWellSplit(preamble + [""], blocks);
    FlattenCons(preamble + [""], blocks);
    assert preamble + printed == (preamble + [""]) + Flatten(blocks);
    SplitOfFlatten([preamble + [""]] + blocks);
  }

  lemma PreambleParts(preamble: Doc, items: seq<Sent>)
    requires AllPrintable(items) && items != [] && NoneAnchored(preamble, 0)
    ensures Split(preamble + Print(items)) == [preamble + [""]] + PartsOf(items)
  {
    PrintedParts(items);
    PartsAreBlocks(items);
    SplitAfterPreamble(preamble, Print(items), PartsOf(items));
  }

  lemma ParsePreamble(first: Doc, parts: seq<Doc>)
    requires NoneAnchored(first, 0)
    ensures ParseParts([first] + parts) == ParseParts(parts)
  {
    assert ([first] + parts)[1..] == parts;
    assert !Anchored(first, 0);
  }

  /**
   Main result.  Parsing a document made of any preamble and any list of printed blocks gives, in
   order, each block's ids, timestamp, subject and trimmed bodies, minus the pairs without signal,
   even when a sent body contains `---` lines, section markers or bare look-alike headers.
   */
  lemma ParseInvertsPrint(preamble: Doc, items: seq<Sent>)
    requires AllPrintable(items) && items != [] && NoneAnchored(preamble, 0)
    ensures Parsed(preamble + Print(items)) == ExpectedAll(items)
  {
    PreambleParts(preamble, items);
    PartsRead(items);
    PreambleAlone(preamble);
    ParsePreamble(preamble + [""], PartsOf(items));
  }

  /**
   The parser finds the subject as it was written (trimmed) exactly when it is not blank: in the
   section, and in the pair that parsing the printed block yields.
   */
  lemma SubjectReadsBackExactly(m: DraftMatch, sentBody: string, tail: seq<Line>)
    requires Printable(m, sentBody)
    ensures FieldValue(Section(m, sentBody, tail), SUBJECT) == Trim(m.subject) <==> Trim(m.subject) != ""
    ensures HasSignal(BodyText(m.draftBody), BodyText(sentBody)) ==>
              var pairs := Parsed(FormatDiffBlock(m, sentBody));
              |pairs| == 1 && (pairs[0].subject == Trim(m.subject) <==> Trim(m.subject) != "")
  {
    SubjectReads(m, sentBody, tail);
    OneBlock(m, sentBody);
    ParseInvertsPrint([], [(m, sentBody)]);
    assert [] + Print([(m, sentBody)]) == Print([(m, sentBody)]);
  }

  lemma OneBlock(m: DraftMatch, sentBody: string)
    requires Printable(m, sentBody)
    ensures Print([(m, sentBody)]) == FormatDiffBlock(m, sentBody) && AllPrintable([(m, sentBody)])
    ensures ExpectedAll([(m, sentBody)]) == Expected(m, sentBody, SubjectRead(m))
  {
    var items: seq<Sent> := [(m, sentBody)];
    assert items[1..] == [];
    assert Print(items) == FormatDiffBlock(m, sentBody) + [];
    assert ExpectedAll(items) == Expected(m, sentBody, SubjectRead(m)) + [];
  }

  lemma LacksChar(line: Line, key: string, k: nat)
    requires k < |key| && key[k] !in line
    ensures !Contains(line, key)
  {
    forall i: nat | i <= |line| ensures !OccursAt(line, key, i) {
      if OccursAt(line, key, i) {
        OccursHolds(line, key, i, k);
      }
    }
  }

  lemma OccursHolds(line: Line, key: string, i: nat, k: nat)
    requires OccursAt(line, key, i) && k < |key|
    ensures key[k] in line
  {
    assert line[i..i + |key|][k] == line[i + k];
  }

  lemma PlainBody(body: string)
    requires OneLine(body) && body != "" && Text.Trimmed(body) && body[0] != '#'
    ensures Lines(BodyText(body)) == [body] && NoneAnchored(Lines(BodyText(body)), 0)
  {
    TrimUndoesPadding("", body, "");
    assert "" + body + "" == body;
    LinesOfOne(body);
    assert HEADER[0] == '#';
  }

  /** Metadata lines are kept apart from markers and keys by characters they do not hold. */
  lemma PlainMetadata(m: DraftMatch)
    requires '#' !in ThreadLine(m) && '#' !in SentAtLine(m) && '#' !in SubjectLine(m) && '#' !in RecipientsLine(m)
    requires 's' !in ThreadLine(m) && 'j' !in ThreadLine(m) && 'j' !in SentAtLine(m)
    ensures NoMarker(ThreadLine(m)) && NoMarker(SentAtLine(m)) && NoMarker(SubjectLine(m))
            && NoMarker(RecipientsLine(m))
    ensures !Contains(ThreadLine(m), SENT_AT) && !Contains(ThreadLine(m), SUBJECT) && !Contains(SentAtLine(m), SUBJECT)
  {
    forall line | line in [ThreadLine(m), SentAtLine(m), SubjectLine(m), RecipientsLine(m)] ensures NoMarker(line) {
      LacksChar(line, DRAFT, 0);
      LacksChar(line, SENT, 0);
    }
    LacksChar(ThreadLine(m), SENT_AT, 2);
    LacksChar(ThreadLine(m), SUBJECT, 5);
    LacksChar(SentAtLine(m), SUBJECT, 5);
  }

  const NO_SUBJECT := DraftMatch("d1", "m1", "", "2020-01-01", "", "ceo@corp", "hello")

  lemma NoSubjectLines()
    ensures ThreadLine(NO_SUBJECT) == "- thread_id: (none)" && SentAtLine(NO_SUBJECT) == "- sent_at: 2020-01-01"
    ensures SubjectLine(NO_SUBJECT) == "- subject: " && RecipientsLine(NO_SUBJECT) == "- recipients: ceo@corp"
  {}

  lemma ThreadChars()
    ensures var t := "- thread_id: (none)"; '#' !in t && 's' !in t && 'j' !in t && '\n' !in t
  {}

  lemma SentAtChars()
    ensures var t := "- sent_at: 2020-01-01"; '#' !in t && 'j' !in t && '\n' !in t
  {}

  lemma SubjectChars()
    ensures var t := "- subject: "; '#' !in t && '\n' !in t
  {}

  lemma RecipientsChars()
    ensures var t := "- recipients: ceo@corp"; '#' !in t && '\n' !in t && Text.Trimmed(t)
  {}

  lemma NoSubjectMetadata()
    ensures CleanMetadata(NO_SUBJECT)
  {
    NoSubjectLines();
    ThreadChars();
    SentAtChars();
    SubjectChars();
    RecipientsChars();
    PlainMetadata(NO_SUBJECT);
  }

  lemma PlainPrintable(m: DraftMatch, sentBody: string)
    requires m.draftId != "" && NoSpace(m.draftId) && m.messageId != "" && NoSpace(m.messageId) && CleanMetadata(m)
    requires m.sentAt != "" && Text.Trimmed(m.sentAt)
    requires OneLine(m.draftBody) && m.draftBody != "" && Text.Trimmed(m.draftBody) && '#' !in m.draftBody
    requires OneLine(sentBody) && sentBody != "" && Text.Trimmed(sentBody) && '#' !in sentBody
    ensures Printable(m, sentBody)
  {
    assert m.draftBody[0] in m.draftBody && sentBody[0] in sentBody;
    PlainBody(m.draftBody);
    PlainBody(sentBody);
    LacksChar(m.draftBody, SENT, 0);
    WholeIsTrimmed(m.sentAt);
  }

  lemma NoSubjectPrintable()
    ensures Printable(NO_SUBJECT, "hello")
  {
    NoSubjectMetadata();
    PlainPrintable(NO_SUBJECT, "hello");
  }

  lemma WholeIsTrimmed(s: string)
    requires Text.Trimmed(s)
    ensures Trim(s) == s
  {
    TrimUndoesPadding("", s, "");
    assert "" + s + "" == s;
  }

  /** A printable match without a subject: what the parser finds is the recipients line. */
  lemma MissingSubjectReadsRecipients()
    ensures Printable(NO_SUBJECT, "hello")
    ensures FieldValue(Section(NO_SUBJECT, "hello", []), SUBJECT) == "- recipients: ceo@corp"
  {
    NoSubjectPrintable();
    NoSubjectLines();
    RecipientsChars();
    SubjectReads(NO_SUBJECT, "hello", []);
    WholeIsTrimmed("- recipients: ceo@corp");
  }

  lemma NotStamp(line: Line)
    requires line == "" || line[0] != '-' || (|line| > 2 && line[2] != 's')
    ensures !StartsWith(line, SENT_AT)
  {}

  lemma StampSkip(line: Line, rest: Doc)
    requires !StartsWith(line, SENT_AT)
    ensures SentAtRaw([line] + rest) == SentAtRaw(rest)
  {
    assert ([line] + rest)[1..] == rest;
  }

  lemma StampHit(v: string, rest: Doc)
    ensures SentAtRaw([SENT_AT + v] + rest) == FirstText([v] + rest)
  {
    assert ([SENT_AT + v] + rest)[1..] == rest;
    assert (SENT_AT + v)[|SENT_AT|..] == v;
  }

  lemma StampBelow(h: Line, t: Line, v: string, rest: Doc)
    requires !StartsWith(h, SENT_AT) && !StartsWith(t, SENT_AT)
    ensures SentAtRaw([h] + ([""] + ([t] + ([SENT_AT + v] + rest)))) == FirstText([v] + rest)
  {
    var r1 := [SENT_AT + v] + rest;
    NotStamp("");
    StampSkip(h, [""] + ([t] + r1));
    StampSkip("", [t] + r1);
    StampSkip(t, r1);
    StampHit(v, rest);
  }

  lemma StampReads(m: DraftMatch, sentBody: string, tail: seq<Line>)
    requires Printable(m, sentBody)
    ensures SentAtRaw(PartOf(m, sentBody, tail)) == Trim(m.sentAt)
  {
    var r3 := [SubjectLine(m)] + ([RecipientsLine(m)] + Bodies(m, sentBody, tail));
    assert (HEADER + HeaderText(m))[0] == '#';
    NotStamp(HEADER + HeaderText(m));
    assert ThreadLine(m)[2] == 't';
    NotStamp(ThreadLine(m));
    assert SentAtLine(m) == SENT_AT + (" " + m.sentAt);
    StampBelow(HEADER + HeaderText(m), ThreadLine(m), " " + m.sentAt, r3);
    FirstTextSpaced(m.sentAt, r3);
  }

  /** A printed block stays when its timestamp is unreadable or not older than the cutoff. */
  predicate Stays(item: Sent, cutoff: int, date: string -> Option<int>) {
    date(Trim(item.0.sentAt)).None? || date(Trim(item.0.sentAt)).value >= cutoff
  }

  lemma PartStays(m: DraftMatch, sentBody: string, tail: seq<Line>, cutoff: int, date: string -> Option<int>)
    requires Printable(m, sentBody)
    ensures Kept(PartOf(m, sentBody, tail), cutoff, date) <==> Stays((m, sentBody), cutoff, date)
  {
    StampReads(m, sentBody, tail);
    PartSection(m, sentBody, tail);
  }

  lemma KeepCons(part: Doc, rest: seq<Doc>, cutoff: int, date: string -> Option<int>)
    ensures KeepParts([part] + rest, cutoff, date)
         == (if Kept(part, cutoff, date) then [part] else []) + KeepParts(rest, cutoff, date)
  {
    assert ([part] + rest)[1..] == rest;
  }

  lemma ParseCons(part: Doc, rest: seq<Doc>)
    requires IsBlock(part)
    ensures ParseParts([part] + rest) == ParseSection(part) + ParseParts(rest)
  {
    assert ([part] + rest)[1..] == rest;
  }

  function StayingItems(items: seq<Sent>, cutoff: int, date: string -> Option<int>): seq<Sent> {
    if items == [] then []
    else (if Stays(items[0], cutoff, date) then [items[0]] else []) + StayingItems(items[1..], cutoff, date)
  }

  lemma ExpectedCons(item: Sent, rest: seq<Sent>)
    ensures ExpectedAll([item] + rest) == Expected(item.0, item.1, SubjectRead(item.0)) + ExpectedAll(rest)
  {
    assert ([item] + rest)[1..] == rest;
  }

  lemma {:induction false} KeepPrinted(items: seq<Sent>, cutoff: int, date: string -> Option<int>)
    requires AllPrintable(items)
    ensures ParseParts(KeepParts(PartsOf(items), cutoff, date)) == ExpectedAll(StayingItems(items, cutoff, date))
  {
    if items != [] {
      var m, b := items[0].0, items[0].1;
      var tail := if |items| > 1 then [""] else [];
      var part := PartOf(m, b, tail);
      PartIsBlock(m, b, tail);
      PartStays(m, b, tail, cutoff, date);
      PartReads(m, b, tail);
      assert forall i :: 0 <= i < |items[1..]| ==> items[1..][i] == items[i + 1];
      KeepPrinted(items[1..], cutoff, date);
      KeepCons(part, PartsOf(items[1..]), cutoff, date);
      var kept, staying := KeepParts(PartsOf(items[1..]), cutoff, date), StayingItems(items[1..], cutoff, date);
      assert items[0] == (m, b);
      if Stays(items[0], cutoff, date) {
        ParseCons(part, kept);
        ExpectedCons(items[0], staying);
      } else {
        assert [] + kept == kept && [] + staying == staying;
      }
    }
  }

  /**
   Retention end to end: trimming a printed document and then parsing it gives the pairs of exactly
   the blocks whose timestamp is unreadable or not older than the cutoff.
   */
  lemma TrimmedDocumentReads(preamble: Doc, items: seq<Sent>, cutoff: int, date: string -> Option<int>)
    requires AllPrintable(items) && items != [] && NoneAnchored(preamble, 0)
    ensures Parsed(TrimmedDoc(preamble + Print(items), Some(cutoff), date))
            == ExpectedAll(StayingItems(items, cutoff, date))
  {
    var first := preamble + [""];
    ParseOfTrimmed(preamble + Print(items), cutoff, date);
    PreambleParts(preamble, items);
    PreambleAlone(preamble);
    KeepPrinted(items, cutoff, date);
    KeepCons(first, PartsOf(items), cutoff, date);
    var kept := KeepParts(PartsOf(items), cutoff, date);
    if Kept(first, cutoff, date) {
      ParsePreamble(first, kept);
    } else {
      assert [] + kept == kept;
    }
  }
}
