/**
 The rolling evidence document: printing a (draft, sent) block, trimming old blocks and parsing the
 document back.  A document is the sequence of its newline-separated lines (a final newline opens
 no further line), so cutting and joining it at line starts keeps its bytes.
 */
module EvidenceDoc {
  import opened Common
  import opened Text

  type Line = string
  type Doc = seq<Line>

  const HEADER := "## Diff — "
  const BULLET := "- "
  const SENT_AT := "- sent_at:"
  const SUBJECT := "- subject:"
  const DRAFT := "### Draft"
  const SENT := "### Sent"
  const RULE := "---"
  const EMPTY := "_(empty)_"

  // ---------------------------------------------------------------------------------------
  // Block boundaries
  // ---------------------------------------------------------------------------------------

  /** A header line anchored to the metadata envelope: a bullet follows, allowing one blank line. */
  predicate Anchored(doc: Doc, i: nat) {
    && i < |doc| && StartsWith(doc[i], HEADER)
    && ((i + 1 < |doc| && StartsWith(doc[i + 1], BULLET))
        || (i + 2 < |doc| && doc[i + 1] == "" && StartsWith(doc[i + 2], BULLET)))
  }

  function NextBoundary(doc: Doc, from: nat): (k: nat)
    requires from <= |doc|
    ensures from <= k <= |doc|
    ensures k < |doc| ==> Anchored(doc, k)
    ensures forall i: nat :: from <= i < k ==> !Anchored(doc, i)
    decreases |doc| - from
  {
    if from == |doc| || Anchored(doc, from) then from else NextBoundary(doc, from + 1)
  }

  /** The pieces between boundaries; the first may be a preamble. */
  function Split(doc: Doc): (parts: seq<Doc>)
    ensures parts != []
    decreases |doc|
  {
    if doc == [] then [[]]
    else
      var k := NextBoundary(doc, 1);
      if k == |doc| then [doc] else [doc[..k]] + Split(doc[k..])
  }

  // ---------------------------------------------------------------------------------------
  // Reading a field
  // ---------------------------------------------------------------------------------------

  /** `\s*(.+)` trimmed: the first non-blank text from here on, whatever line it is on. */
  function FirstText(lines: seq<Line>): string {
    if lines == [] then "" else if Trim(lines[0]) != "" then Trim(lines[0]) else FirstText(lines[1..])
  }

  /** `/^- sent_at:\s*(.+)$/m`, trimmed; empty when nothing matches. */
  function SentAtRaw(part: Doc): string {
    if part == [] then ""
    else if StartsWith(part[0], SENT_AT) then FirstText([part[0][|SENT_AT|..]] + part[1..])
    else SentAtRaw(part[1..])
  }

  /** `/key\s*(.+)/`, trimmed: the key may stand anywhere on a line. */
  function FieldValue(lines: seq<Line>, key: string): string {
    if lines == [] then ""
    else
      match Find(lines[0], key)
      case Some(o) => assert OccursAt(lines[0], key, o) by { FindFirst(lines[0], key); }
                      FirstText([lines[0][o + |key|..]] + lines[1..])
      case None => FieldValue(lines[1..], key)
  }

  // ---------------------------------------------------------------------------------------
  // Trimming
  // ---------------------------------------------------------------------------------------

  /** Kept: not a block, no readable timestamp, or not older than the cutoff. */
  predicate Kept(part: Doc, cutoff: int, date: string -> Option<int>) {
    || part == [] || !StartsWith(part[0], HEADER)
    || SentAtRaw(part) == "" || date(SentAtRaw(part)).None?
    || date(SentAtRaw(part)).value >= cutoff
  }

  function KeepParts(parts: seq<Doc>, cutoff: int, date: string -> Option<int>): seq<Doc> {
    if parts == [] then []
    else (if Kept(parts[0], cutoff, date) then [parts[0]] else []) + KeepParts(parts[1..], cutoff, date)
  }

  function TrimmedDoc(doc: Doc, cutoff: Option<int>, date: string -> Option<int>): Doc {
    if cutoff.None? then doc else Flatten(KeepParts(Split(doc), cutoff.value, date))
  }

  /** The loop's body: whether a part is pushed. */
  method Keeps(part: Doc, cutoff: int, date: string -> Option<int>) returns (keep: bool)
    ensures keep == Kept(part, cutoff, date)
  {
    if part == [] || !StartsWith(part[0], HEADER) {
      return true;  // leading preamble
    }
    var sentAtRaw := SentAtRaw(part);
    var sentAtMs := if sentAtRaw == "" then None else date(sentAtRaw);
    if sentAtMs.None? {
      return true;  // missing or unreadable timestamp
    }
    return !(sentAtMs.value < cutoff);
  }

  lemma KeepStep(done: seq<Doc>, parts: seq<Doc>, i: nat, cutoff: int, date: string -> Option<int>)
    requires i < |parts|
    ensures done + KeepParts(parts[i..], cutoff, date)
         == done + (if Kept(parts[i], cutoff, date) then [parts[i]] else []) + KeepParts(parts[i + 1..], cutoff, date)
  {
    assert parts[i..][1..] == parts[i + 1..];
  }

  method TrimParts(parts: seq<Doc>, cutoff: int, date: string -> Option<int>) returns (kept: seq<Doc>)
    ensures kept == KeepParts(parts, cutoff, date)
  {
    kept := [];
    for i := 0 to |parts|
      invariant kept + KeepParts(parts[i..], cutoff, date) == KeepParts(parts, cutoff, date)
    {
      var keep := Keeps(parts[i], cutoff, date);
      KeepStep(kept, parts, i, cutoff, date);
      if keep {
        kept := kept + [parts[i]];
      } else {
        assert kept + [] == kept;
      }
    }
  }

  method TrimEvidenceDoc(doc: Doc, cutoff: Option<int>, date: string -> Option<int>) returns (r: Doc)
    ensures r == TrimmedDoc(doc, cutoff, date)
  {
    if cutoff.None? {
      return doc;
    }
    var kept := TrimParts(Split(doc), cutoff.value, date);
    r := Flatten(kept);
  }

  // ---------------------------------------------------------------------------------------
  // Parsing
  // ---------------------------------------------------------------------------------------

  datatype ParsedPair = ParsedPair(draftId: string, messageId: string, sentAt: string, subject: string,
                                   draftBody: string, sentBody: string)

  /** `draft <id> ↔ sent <id>` anywhere in the header's words. */
  function HeaderIds(words: seq<string>): Option<(string, string)> {
    if |words| < 5 then None
    else if words[0] == "draft" && words[2] == "↔" && words[3] == "sent" then Some((words[1], words[4]))
    else HeaderIds(words[1..])
  }

  /** The first (or last) line beginning with `end`. */
  function CutAt(lines: seq<Line>, end: string, fromEnd: bool): Option<nat> {
    if lines == [] then None
    else
      match CutAt(lines[1..], end, fromEnd)
      case None => if StartsWith(lines[0], end) then Some(0) else None
      case Some(i) => if !fromEnd && StartsWith(lines[0], end) then Some(0) else Some(i + 1)
  }

  /** What follows the first occurrence of `start`, the rest of its own line included. */
  function After(lines: seq<Line>, start: string): Option<seq<Line>> {
    if lines == [] then None
    else
      match Find(lines[0], start)
      case Some(o) => assert OccursAt(lines[0], start, o) by { FindFirst(lines[0], start); }
                      Some([lines[0][o + |start|..]] + lines[1..])
      case None => After(lines[1..], start)
  }

  lemma {:induction false} CutInside(lines: seq<Line>, end: string, fromEnd: bool)
    ensures CutAt(lines, end, fromEnd).Some? ==>
              CutAt(lines, end, fromEnd).value < |lines| && StartsWith(lines[CutAt(lines, end, fromEnd).value], end)
  {
    if lines != [] {
      CutInside(lines[1..], end, fromEnd);
    }
  }

  function SectionOf(lines: seq<Line>, start: string, end: string, fromEnd: bool): string {
    match After(lines, start)
    case None => ""
    case Some(after) =>
      match CutAt(after, end, fromEnd)
      case None => Trim(Unlines(after))
      case Some(i) => CutInside(after, end, fromEnd); Trim(Unlines(after[..i]))
  }

  method ExtractSection(lines: seq<Line>, start: string, end: string, fromEnd: bool) returns (r: string)
    ensures r == SectionOf(lines, start, end, fromEnd)
  {
    var after := After(lines, start);
    if after.None? {
      return "";
    }
    var cut: Option<nat> := None;
    var i := 0;
    while i < |after.value| && (fromEnd || cut.None?)
      invariant 0 <= i <= |after.value|
      invariant cut.Some? ==> cut.value < i
      invariant var rest := CutAt(after.value[i..], end, fromEnd);
                CutAt(after.value, end, fromEnd)
                == if cut.Some? && (!fromEnd || rest.None?) then cut else if rest.Some? then Some(i + rest.value)
                   else None
    {
      assert after.value[i..][1..] == after.value[i + 1..];
      if StartsWith(after.value[i], end) {
        cut := Some(i);
      }
      i := i + 1;
    }
    CutInside(after.value, end, fromEnd);
    r := Trim(Unlines(if cut.None? then after.value else after.value[..cut.value]));
  }

  function NormalizedWords(s: string): seq<string> {
    Words(ToLower(s))
  }

  /** Equal after collapsing white space and case. */
  predicate IsVerbatim(draft: string, sent: string) {
    NormalizedWords(draft) == NormalizedWords(sent)
  }

  function WordSet(words: seq<string>): set<string> {
    set w | w in words
  }

  /** Token overlap (Jaccard) below 0.15, that is 20·|∩| < 3·|∪|; never for a blank side. */
  predicate IsNearTotalRewrite(draft: string, sent: string) {
    var d, s := NormalizedWords(draft), NormalizedWords(sent);
    d != [] && s != [] && 20 * |WordSet(d) * WordSet(s)| < 3 * |WordSet(d) + WordSet(s)|
  }

  /** A pair carries signal unless it is blank, sent verbatim or rewritten almost entirely. */
  predicate HasSignal(draftBody: string, sentBody: string) {
    && !(Blank(draftBody) && Blank(sentBody))
    && !IsVerbatim(draftBody, sentBody) && !IsNearTotalRewrite(draftBody, sentBody)
  }

  /** One section: a block's lines with the header prefix consumed. */
  function SectionLines(part: Doc): seq<Line>
    requires part != [] && StartsWith(part[0], HEADER)
  {
    [part[0][|HEADER|..]] + part[1..]
  }

  function ParseSection(part: Doc): seq<ParsedPair>
    requires part != [] && StartsWith(part[0], HEADER)
  {
    var lines := SectionLines(part);
    match HeaderIds(Words(lines[0]))
    case None => []
    case Some(ids) =>
      var draftBody := SectionOf(lines, DRAFT, SENT, false);
      var sentBody := SectionOf(lines, SENT, RULE, true);
      if HasSignal(draftBody, sentBody)
      then [ParsedPair(ids.0, ids.1, FieldValue(lines, SENT_AT), FieldValue(lines, SUBJECT), draftBody, sentBody)]
      else []
  }

  /** The pairs of the anchored blocks among `parts`. */
  function ParseParts(parts: seq<Doc>): seq<ParsedPair> {
    if parts == [] then []
    else (if Anchored(parts[0], 0) then ParseSection(parts[0]) else []) + ParseParts(parts[1..])
  }

  function Parsed(doc: Doc): seq<ParsedPair> {
    ParseParts(Split(doc))
  }

  /** The loop's body: an empty answer is a `continue` there. */
  method ParseBlock(part: Doc) returns (pairs: seq<ParsedPair>)
    requires part != [] && StartsWith(part[0], HEADER)
    ensures pairs == ParseSection(part)
  {
    var lines := SectionLines(part);
    var ids := HeaderIds(Words(lines[0]));
    if ids.None? {
      return [];
    }
    var draftBody := ExtractSection(lines, DRAFT, SENT, false);
    var sentBody := ExtractSection(lines, SENT, RULE, true);
    if Blank(draftBody) && Blank(sentBody) {
      return [];
    }
    if IsVerbatim(draftBody, sentBody) || IsNearTotalRewrite(draftBody, sentBody) {
      return [];
    }
    pairs := [ParsedPair(ids.value.0, ids.value.1, FieldValue(lines, SENT_AT), FieldValue(lines, SUBJECT), draftBody,
                         sentBody)];
  }

  method ParsePendingDiffs(doc: Doc) returns (pairs: seq<ParsedPair>)
    ensures pairs == Parsed(doc)
  {
    pairs := [];
    var sections := Split(doc);
    for i := 0 to |sections|
      invariant pairs + ParseParts(sections[i..]) == ParseParts(sections)
    {
      assert sections[i..][1..] == sections[i + 1..];
      if Anchored(sections[i], 0) {
        var pair := ParseBlock(sections[i]);
        pairs := pairs + pair;
      }
    }
  }

  // ---------------------------------------------------------------------------------------
  // Printing
  // ---------------------------------------------------------------------------------------

  /** The fields of a match that a block prints; `recipients` already joined. */
  datatype DraftMatch = DraftMatch(draftId: string, messageId: string, threadId: string, sentAt: string,
                                   subject: string, recipients: string, draftBody: string)

  function BodyText(body: string): string {
    if Trim(body) == "" then EMPTY else Trim(body)
  }

  function HeaderText(m: DraftMatch): string {
    "draft " + m.draftId + " ↔ sent " + m.messageId
  }

  function FormatDiffBlock(m: DraftMatch, sentBody: string): Doc {
    [""] + Lines(HEADER + HeaderText(m)) + [""]
    + Lines("- thread_id: " + (if m.threadId == "" then "(none)" else m.threadId))
    + Lines("- sent_at: " + m.sentAt)
    + Lines("- subject: " + m.subject)
    + Lines("- recipients: " + m.recipients)
    + ["", DRAFT, ""] + Lines(BodyText(m.draftBody))
    + ["", SENT, ""] + Lines(BodyText(sentBody))
    + ["", RULE]
  }
}
