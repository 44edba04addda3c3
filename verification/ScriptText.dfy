/** Scripts as text: printing a draft line by line and parsing text back into a draft. */
module ScriptText {
  import opened Wrappers
  import opened Text

  datatype Section = Hook | Body | Cta {

    function Label(): string {
      match this case Hook => "HOOK" case Body => "BODY" case Cta => "CTA"
    }
  }

  datatype Beat = Beat(section: Section, text: string, seconds: int)

  datatype Draft = Draft(
    id: string, conceptId: string, beats: seq<Beat>, callToAction: string, estimatedDuration: int)

  datatype ScriptError = BlankText | Validation

  datatype ScriptResult = ScriptResult(script: string, draft: Draft)

  // ----- The contracts the models enforce -----

  predicate ValidBeat(b: Beat) {
    Trimmed(b.text) && 1 <= |b.text| <= 2000 && 1 <= b.seconds <= 120
  }

  predicate ValidDraft(d: Draft) {
    && 1 <= |d.beats| <= 20 && (forall i :: 0 <= i < |d.beats| ==> ValidBeat(d.beats[i]))
    && Trimmed(d.callToAction) && 1 <= |d.callToAction| <= 500
    && 1 <= d.estimatedDuration <= 180
  }

  /** A draft id and a concept id that the draft accepts, trimmed. */
  predicate ValidIds(id: string, conceptId: string) {
    1 <= |Strip(id)| <= 200 && 1 <= |Strip(conceptId)| <= 200
  }

  // ----- Printing -----

  function Line(section: Section, text: string): string {
    section.Label() + ":" + (" " + text)
  }

  predicate HasCta(beats: seq<Beat>) {
    exists i :: 0 <= i < |beats| && beats[i].section == Cta
  }

  function BeatLines(beats: seq<Beat>): (lines: seq<string>)
    ensures |lines| == |beats|
    ensures forall i :: 0 <= i < |beats| ==> lines[i] == Line(beats[i].section, beats[i].text)
  {
    if beats == [] then []
    else BeatLines(beats[..|beats| - 1]) + [Line(beats[|beats| - 1].section, beats[|beats| - 1].text)]
  }

  function Lines(d: Draft): seq<string> {
    BeatLines(d.beats) + if HasCta(d.beats) then [] else [Line(Cta, d.callToAction)]
  }

  function JoinLines(lines: seq<string>): string {
    if lines == [] then ""
    else if |lines| == 1 then lines[0]
    else lines[0] + "\n" + JoinLines(lines[1..])
  }

  function RenderText(d: Draft): string {
    JoinLines(Lines(d))
  }

  // ----- Parsing -----

  /** The characters at which Python's splitlines() breaks. */
  predicate IsBreak(c: char) {
    || '\n' <= c <= '\r'
    || '\U{1c}' <= c <= '\U{1e}'
    || c == '\U{85}' || c == '\U{2028}' || c == '\U{2029}'
  }

  function LineEnd(s: string): (i: nat)
    ensures i <= |s|
  {
    if s == "" || IsBreak(s[0]) then 0 else 1 + LineEnd(s[1..])
  }

  function BreakLength(s: string, i: nat): nat
    requires i < |s|
  {
    if s[i] == '\r' && i + 1 < |s| && s[i + 1] == '\n' then 2 else 1
  }

  /** What follows the first line and its break. */
  function AfterLine(s: string): (rest: string)
    ensures s != "" ==> |rest| < |s|
  {
    var i := LineEnd(s);
    if i == |s| then "" else s[i + BreakLength(s, i)..]
  }

  function SplitLines(s: string): seq<string>
    decreases |s|
  {
    if s == "" then [] else [s[..LineEnd(s)]] + SplitLines(AfterLine(s))
  }

  /** The position of the first colon, or the length of the line. */
  function Colon(s: string): (i: nat)
    ensures i <= |s|
  {
    if s == "" || s[0] == ':' then 0 else 1 + Colon(s[1..])
  }

  function SectionNamed(heading: string): Section {
    var name := Lower(Strip(heading));
    if name == "hook" then Hook else if name == "cta" then Cta else Body
  }

  /** How many words Python's split() finds. */
  function WordCount(s: string): nat {
    if s == "" then 0
    else
      WordCount(s[..|s| - 1])
      + if !IsSpace(s[|s| - 1]) && (|s| == 1 || IsSpace(s[|s| - 2])) then 1 else 0
  }

  /** max(1, min(120, round(words / 2.5))); 2n/5 is never half way between integers. */
  function SecondsFor(spoken: string): int {
    var rounded := (4 * WordCount(spoken) + 5) / 10;
    if rounded < 1 then 1 else if rounded > 120 then 120 else rounded
  }

  /** Between the bounds the seconds are the whole number nearest to words / 2.5, and a bound is used
      exactly when that number is not inside. */
  lemma SecondsAreNearest(spoken: string)
    ensures
      var seconds, words := SecondsFor(spoken), WordCount(spoken);
      && 1 <= seconds <= 120
      && (1 < seconds ==> 5 * seconds - 2 * words < 3) && (seconds < 120 ==> 2 * words - 5 * seconds < 3)
  {
  }

  function ParseLine(line: string): Option<Beat> {
    var i := Colon(line);
    var spoken := if i < |line| then Strip(line[i + 1..]) else Strip(line);
    if spoken == "" then None
    else Some(Beat(SectionNamed(line[..i]), spoken, SecondsFor(spoken)))
  }

  /** The results of the lines that yield one, in order. */
  function Collect(parse: string -> Option<Beat>, lines: seq<string>): seq<Beat> {
    if lines == [] then []
    else
      Collect(parse, lines[..|lines| - 1])
      + match parse(lines[|lines| - 1]) case None => [] case Some(b) => [b]
  }

  function ParseLines(lines: seq<string>): seq<Beat> {
    Collect(ParseLine, lines)
  }

  /** The text of the last call-to-action beat, or of the last beat. */
  function CallToAction(beats: seq<Beat>): string
    requires beats != []
  {
    LastCta(beats, beats[|beats| - 1].text)
  }

  function LastCta(beats: seq<Beat>, default: string): string {
    if beats == [] then default
    else if beats[|beats| - 1].section == Cta then beats[|beats| - 1].text
    else LastCta(beats[..|beats| - 1], default)
  }

  function TotalSeconds(beats: seq<Beat>): int {
    if beats == [] then 0 else TotalSeconds(beats[..|beats| - 1]) + beats[|beats| - 1].seconds
  }

  function DraftFrom(beats: seq<Beat>, id: string, conceptId: string): Draft
    requires beats != []
  {
    var total := TotalSeconds(beats);
    Draft(id, conceptId, beats, CallToAction(beats), if total > 180 then 180 else total)
  }

  function BeatsOf(normalized: string): (beats: seq<Beat>)
    ensures beats != []
  {
    var parsed := ParseLines(SplitLines(normalized));
    if parsed == [] then [Beat(Body, normalized, 1)] else parsed
  }

  function ParseText(text: string, id: string, conceptId: string): Result<ScriptResult, ScriptError> {
    var normalized := Strip(text);
    if normalized == "" then Err(BlankText)
    else
      var draft := DraftFrom(BeatsOf(normalized), Strip(id), Strip(conceptId));
      if ValidDraft(draft) && ValidIds(id, conceptId) then Ok(ScriptResult(normalized, draft)) else Err(Validation)
  }

  lemma CollectNext(parse: string -> Option<Beat>, lines: seq<string>, i: nat)
    requires i < |lines|
    ensures Collect(parse, lines[..i + 1]) ==
      Collect(parse, lines[..i]) + match parse(lines[i]) case None => [] case Some(b) => [b]
  {
    assert lines[..i + 1][..i] == lines[..i];
  }

  /** The body of the loop over lines. */
  method BeatOf(line: string) returns (beat: Option<Beat>)
    ensures beat == ParseLine(line)
  {
    var colon := Colon(line);
    var spoken := if colon < |line| then Strip(line[colon + 1..]) else Strip(line);
    if spoken == "" { return None; }
    return Some(Beat(SectionNamed(line[..colon]), spoken, SecondsFor(spoken)));
  }

  method ParseBeats(lines: seq<string>) returns (beats: seq<Beat>)
    ensures beats == ParseLines(lines)
  {
    beats := [];
    for i := 0 to |lines|
      invariant beats == Collect(ParseLine, lines[..i])
    {
      CollectNext(ParseLine, lines, i);
      var beat := BeatOf(lines[i]);
      if beat.None? { continue; }
      beats := beats + [beat.value];
    }
    assert lines[..|lines|] == lines;
  }

  method ScriptResultFromText(text: string, id: string, conceptId: string)
    returns (r: Result<ScriptResult, ScriptError>)
    ensures r == ParseText(text, id, conceptId)
  {
    var normalized := Strip(text);
    if normalized == "" { return Err(BlankText); }
    var beats := ParseBeats(SplitLines(normalized));
    if beats == [] {
      beats := [Beat(Body, normalized, 1)];
    }
    var draft := DraftFrom(beats, Strip(id), Strip(conceptId));
    if !ValidDraft(draft) || !ValidIds(id, conceptId) { return Err(Validation); }
    return Ok(ScriptResult(normalized, draft));
  }

  // ----- Splitting undoes joining -----

  /** A line that can be told apart again: it is not empty and does not end in a break. */
  ghost predicate Solid(line: string) {
    line != "" && !IsBreak(line[|line| - 1])
  }

  lemma {:induction false} LineEndShape(s: string)
    ensures LineEnd(s) < |s| ==> IsBreak(s[LineEnd(s)])
    ensures forall k :: 0 <= k < LineEnd(s) ==> !IsBreak(s[k])
  {
    if s != "" && !IsBreak(s[0]) { LineEndShape(s[1..]); }
  }

  lemma {:induction false} LineEndOf(s: string, i: nat)
    requires i <= |s| && (i < |s| ==> IsBreak(s[i])) && forall k :: 0 <= k < i ==> !IsBreak(s[k])
    ensures LineEnd(s) == i
  {
    if s != "" && !IsBreak(s[0]) { LineEndOf(s[1..], i - 1); }
  }

  /** Text that continues after a line. */
  ghost predicate Continuation(c: string) {
    c != "" && c[0] == '\n'
  }

  lemma SameLineEnd(a: string, c: string)
    requires Solid(a) && Continuation(c)
    ensures LineEnd(a + c) == LineEnd(a)
  {
    LineEndShape(a);
    assert forall k :: 0 <= k < |a| ==> (a + c)[k] == a[k];
    assert (a + c)[|a|] == '\n';
    LineEndOf(a + c, LineEnd(a));
  }

  lemma AfterLastLine(a: string, c: string)
    requires Solid(a) && Continuation(c) && LineEnd(a) == |a|
    ensures AfterLine(a + c) == c[1..] && AfterLine(a) == ""
  {
    SameLineEnd(a, c);
    assert (a + c)[|a|] == '\n' && (a + c)[|a| + 1..] == c[1..];
  }

  lemma InnerBreak(a: string)
    requires Solid(a) && LineEnd(a) < |a|
    ensures LineEnd(a) + 1 < |a| && LineEnd(a) + BreakLength(a, LineEnd(a)) < |a|
    ensures Solid(AfterLine(a))
  {
    var i := LineEnd(a);
    LineEndShape(a);
    assert IsBreak('\n');
    assert AfterLine(a) == a[i + BreakLength(a, i)..];
  }

  lemma AfterAt(s: string, i: nat)
    requires LineEnd(s) == i < |s|
    ensures AfterLine(s) == s[i + BreakLength(s, i)..]
  {
  }

  lemma SameRest(a: string, c: string, i: nat)
    requires i + 1 < |a| && i + BreakLength(a, i) <= |a|
    ensures BreakLength(a + c, i) == BreakLength(a, i)
    ensures (a + c)[i + BreakLength(a, i)..] == a[i + BreakLength(a, i)..] + c
  {
    assert (a + c)[i] == a[i] && (a + c)[i + 1] == a[i + 1];
  }

  lemma AfterInnerLine(a: string, c: string)
    requires Solid(a) && Continuation(c) && LineEnd(a) < |a|
    ensures AfterLine(a + c) == AfterLine(a) + c
  {
    var i := LineEnd(a);
    InnerBreak(a);
    SameLineEnd(a, c);
    SameRest(a, c, i);
    AfterAt(a, i);
    AfterAt(a + c, i);
  }

  lemma {:induction false} SplitContinued(a: string, c: string)
    requires Solid(a) && Continuation(c)
    ensures SplitLines(a + c) == SplitLines(a) + SplitLines(c[1..])
    decreases |a|
  {
    SameLineEnd(a, c);
    assert (a + c)[..LineEnd(a)] == a[..LineEnd(a)];
    if LineEnd(a) == |a| {
      AfterLastLine(a, c);
    } else {
      InnerBreak(a);
      AfterInnerLine(a, c);
      SplitContinued(AfterLine(a), c);
    }
  }

  lemma SplitAtNewline(a: string, b: string)
    requires Solid(a)
    ensures SplitLines(a + "\n" + b) == SplitLines(a) + SplitLines(b)
  {
    var c := "\n" + b;
    assert a + "\n" + b == a + c && c[1..] == b;
    SplitContinued(a, c);
  }

  ghost predicate NoBreak(s: string) {
    forall i :: 0 <= i < |s| ==> !IsBreak(s[i])
  }

  lemma SplitSingle(line: string)
    requires line != "" && NoBreak(line)
    ensures SplitLines(line) == [line]
  {
    LineEndOf(line, |line|);
    assert AfterLine(line) == "" && line[..|line|] == line;
  }

  /** Splitting the printed text gives the printed lines back. */
  lemma {:induction false} SplitUndoesJoin(lines: seq<string>)
    requires forall i :: 0 <= i < |lines| ==> lines[i] != "" && NoBreak(lines[i])
    ensures SplitLines(JoinLines(lines)) == lines
  {
    if lines != [] {
      SplitSingle(lines[0]);
      assert [lines[0]] + lines[1..] == lines;
      if |lines| > 1 {
        SplitAtNewline(lines[0], JoinLines(lines[1..]));
        SplitUndoesJoin(lines[1..]);
      }
    }
  }

  // ----- Parsing a printed line -----

  lemma {:induction false} ColonAfter(heading: string, rest: string)
    requires ':' !in heading
    ensures Colon(heading + ":" + rest) == |heading|
  {
    var s := heading + ":" + rest;
    if heading != "" {
      assert s[1..] == heading[1..] + ":" + rest;
      ColonAfter(heading[1..], rest);
    }
  }

  lemma LabelIsRead(section: Section, heading: string)
    requires heading == section.Label()
    ensures ':' !in heading && SectionNamed(heading) == section
    ensures heading != "" && !IsSpace(heading[0]) && NoBreak(heading)
  {
    StripFixed(heading);
    var lowered := Lower(heading);
    match section
    case Hook => assert lowered == "hook";
    case Body => assert lowered[0] == 'b';
    case Cta => assert lowered == "cta";
  }

  lemma StripPadded(text: string)
    ensures Strip(" " + text) == Strip(text)
  {
    assert (" " + text)[1..] == text;
    assert StripLeft(" " + text) == StripLeft(text);
  }

  /** A line printed for any text that is not blank parses to its section and the trimmed text. */
  lemma LineParses(section: Section, text: string)
    requires Strip(text) != ""
    ensures ParseLine(Line(section, text)) == Some(Beat(section, Strip(text), SecondsFor(Strip(text))))
  {
    var heading := section.Label();
    LabelIsRead(section, heading);
    var line := heading + ":" + (" " + text);
    ColonAfter(heading, " " + text);
    assert line[..|heading|] == heading && line[|heading| + 1..] == " " + text;
    StripPadded(text);
  }

  /** A printed line parses to its beat. */
  lemma PrintedLineParses(section: Section, text: string)
    requires Trimmed(text) && text != ""
    ensures ParseLine(Line(section, text)) == Some(Beat(section, text, SecondsFor(text)))
  {
    StripFixed(text);
    LineParses(section, text);
  }

  // ----- Round trip -----

  /** The same sections and texts, with the seconds the parser computes. */
  function Reread(beats: seq<Beat>): (r: seq<Beat>)
    ensures |r| == |beats|
    ensures forall i :: 0 <= i < |beats| ==>
      r[i] == Beat(beats[i].section, beats[i].text, SecondsFor(beats[i].text))
  {
    seq(|beats|, i requires 0 <= i < |beats| => Beat(beats[i].section, beats[i].text, SecondsFor(beats[i].text)))
  }

  /** The beats a draft prints: its own, and its call to action when it has no such beat. */
  function PrintedBeats(d: Draft): seq<Beat> {
    d.beats + if HasCta(d.beats) then [] else [Beat(Cta, d.callToAction, 1)]
  }

  ghost predicate Printable(b: Beat) {
    Trimmed(b.text) && b.text != "" && NoBreak(b.text)
  }

  lemma LinesOfPrinted(d: Draft)
    ensures Lines(d) == BeatLines(PrintedBeats(d))
  {
    var printed := PrintedBeats(d);
    if !HasCta(d.beats) {
      assert printed[..|printed| - 1] == d.beats;
    } else {
      assert printed == d.beats;
    }
  }

  lemma {:induction false} CollectAll(parse: string -> Option<Beat>, lines: seq<string>, beats: seq<Beat>)
    requires |lines| == |beats| && forall i :: 0 <= i < |lines| ==> parse(lines[i]) == Some(beats[i])
    ensures Collect(parse, lines) == beats
  {
    if lines != [] {
      var n := |lines| - 1;
      CollectAll(parse, lines[..n], beats[..n]);
      assert beats[..n] + [beats[n]] == beats;
    }
  }

  lemma ParsePrinted(beats: seq<Beat>)
    requires forall i :: 0 <= i < |beats| ==> Printable(beats[i])
    ensures ParseLines(BeatLines(beats)) == Reread(beats)
  {
    var lines, reread := BeatLines(beats), Reread(beats);
    forall i | 0 <= i < |beats| ensures ParseLine(lines[i]) == Some(reread[i]) {
      PrintedLineParses(beats[i].section, beats[i].text);
    }
    CollectAll(ParseLine, lines, reread);
  }

  /** A line that starts and ends without whitespace and has no break inside. */
  ghost predicate Clean(line: string) {
    line != "" && !IsSpace(line[0]) && !IsSpace(line[|line| - 1]) && NoBreak(line)
  }

  lemma LineShape(section: Section, text: string)
    requires Trimmed(text) && text != "" && NoBreak(text)
    ensures Clean(Line(section, text))
  {
    LabelIsRead(section, section.Label());
  }

  /** Clean lines joined need no stripping. */
  lemma {:induction false} JoinedEnds(lines: seq<string>)
    requires lines != [] && forall i :: 0 <= i < |lines| ==> Clean(lines[i])
    ensures
      var s := JoinLines(lines);
      s != "" && !IsSpace(s[0]) && !IsSpace(s[|s| - 1])
  {
    assert Clean(lines[0]);
    if |lines| > 1 { JoinedEnds(lines[1..]); }
  }

  ghost predicate DraftPrintable(d: Draft) {
    && d.beats != [] && (forall i :: 0 <= i < |d.beats| ==> Printable(d.beats[i]))
    && Trimmed(d.callToAction) && d.callToAction != "" && NoBreak(d.callToAction)
  }

  /** What the parser sees of a printed draft: the same text and the same beats. */
  lemma PrintedBeatsReturn(d: Draft)
    requires DraftPrintable(d)
    ensures Strip(RenderText(d)) == RenderText(d) != ""
    ensures BeatsOf(RenderText(d)) == Reread(PrintedBeats(d))
  {
    var printed := PrintedBeats(d);
    LinesOfPrinted(d);
    BeatsReturn(printed);
  }

  lemma LinesClean(printed: seq<Beat>)
    requires forall i :: 0 <= i < |printed| ==> Printable(printed[i])
    ensures forall i :: 0 <= i < |printed| ==> Clean(BeatLines(printed)[i])
  {
    forall i | 0 <= i < |printed| ensures Clean(BeatLines(printed)[i]) {
      LineShape(printed[i].section, printed[i].text);
    }
  }

  lemma UnspacedStrips(s: string)
    requires s != "" && !IsSpace(s[0]) && !IsSpace(s[|s| - 1])
    ensures Strip(s) == s
  {
    StripFixed(s);
  }

  lemma CleanLinesSplit(lines: seq<string>)
    requires forall i :: 0 <= i < |lines| ==> Clean(lines[i])
    ensures SplitLines(JoinLines(lines)) == lines
  {
    forall i | 0 <= i < |lines| ensures lines[i] != "" && NoBreak(lines[i]) {
      assert Clean(lines[i]);
    }
    SplitUndoesJoin(lines);
  }

  lemma CleanLinesReturn(lines: seq<string>)
    requires lines != [] && forall i :: 0 <= i < |lines| ==> Clean(lines[i])
    ensures Strip(JoinLines(lines)) == JoinLines(lines) != "" && SplitLines(JoinLines(lines)) == lines
  {
    JoinedEnds(lines);
    UnspacedStrips(JoinLines(lines));
    CleanLinesSplit(lines);
  }

  lemma BeatsReturn(printed: seq<Beat>)
    requires printed != [] && forall i :: 0 <= i < |printed| ==> Printable(printed[i])
    ensures
      var s := JoinLines(BeatLines(printed));
      Strip(s) == s != "" && ParseLines(SplitLines(s)) == Reread(printed)
  {
    LinesClean(printed);
    CleanLinesReturn(BeatLines(printed));
    ParsePrinted(printed);
  }

  /** What a printed draft must satisfy to be accepted again: no more than twenty printed beats, and a
      last call to action short enough for the call-to-action field. */
  ghost predicate Fits(d: Draft) {
    && |PrintedBeats(d)| <= 20
    && |LastCta(PrintedBeats(d), "")| <= 500
  }

  lemma {:induction false} LastCtaOf(beats: seq<Beat>, default: string, default': string)
    requires HasCta(beats)
    ensures exists i :: 0 <= i < |beats| && beats[i].section == Cta && LastCta(beats, default) == beats[i].text
    ensures LastCta(beats, default) == LastCta(beats, default')
    ensures LastCta(Reread(beats), default) == LastCta(beats, default)
  {
    var n := |beats| - 1;
    assert Reread(beats)[..n] == Reread(beats[..n]);
    if beats[n].section != Cta {
      assert HasCta(beats[..n]);
      LastCtaOf(beats[..n], default, default');
    }
  }

  lemma {:induction false} SecondsAddUp(beats: seq<Beat>)
    requires forall i :: 0 <= i < |beats| ==> 1 <= beats[i].seconds
    ensures |beats| <= TotalSeconds(beats)
  {
    if beats != [] { SecondsAddUp(beats[..|beats| - 1]); }
  }

  lemma PrintedHasCta(d: Draft)
    ensures HasCta(PrintedBeats(d)) && HasCta(Reread(PrintedBeats(d)))
  {
    var printed := PrintedBeats(d);
    if HasCta(d.beats) {
      var i :| 0 <= i < |d.beats| && d.beats[i].section == Cta;
      assert printed[i].section == Cta && Reread(printed)[i].section == Cta;
    } else {
      var n := |d.beats|;
      assert printed[n].section == Cta && Reread(printed)[n].section == Cta;
    }
  }

  lemma RereadDraftValid(d: Draft, id: string, conceptId: string)
    requires ValidDraft(d) && DraftPrintable(d)
    ensures
      var beats := Reread(PrintedBeats(d));
      && CallToAction(beats) == LastCta(PrintedBeats(d), "")
      && (ValidDraft(DraftFrom(beats, id, conceptId)) <==> Fits(d))
  {
    var printed := PrintedBeats(d);
    var beats := Reread(printed);
    PrintedHasCta(d);
    LastCtaOf(printed, beats[|beats| - 1].text, "");
    RereadValid(d);
    SecondsAddUp(beats);
    LastCtaShape(printed);
  }

  lemma RereadValid(d: Draft)
    requires ValidDraft(d)
    ensures forall i :: 0 <= i < |Reread(PrintedBeats(d))| ==> ValidBeat(Reread(PrintedBeats(d))[i])
    ensures forall i :: 0 <= i < |PrintedBeats(d)| ==>
      Trimmed(PrintedBeats(d)[i].text) && 1 <= |PrintedBeats(d)[i].text|
  {
    var printed := PrintedBeats(d);
    forall i | 0 <= i < |printed| ensures Trimmed(printed[i].text) && 1 <= |printed[i].text| <= 2000 {
      if i < |d.beats| { assert ValidBeat(d.beats[i]); }
    }
  }

  lemma LastCtaShape(beats: seq<Beat>)
    requires HasCta(beats) && forall i :: 0 <= i < |beats| ==> Trimmed(beats[i].text) && 1 <= |beats[i].text|
    ensures Trimmed(LastCta(beats, "")) && 1 <= |LastCta(beats, "")|
  {
    LastCtaOf(beats, "", "");
  }

  /** Printing a valid draft without line breaks and parsing the text succeeds exactly when it fits
      and the ids are acceptable; it then returns the printed text, the same sections and texts, one
      final call-to-action beat when the draft had none, and the last call to action. */
  lemma ParseUndoesPrint(d: Draft, id: string, conceptId: string)
    requires ValidDraft(d) && DraftPrintable(d)
    ensures ParseText(RenderText(d), id, conceptId).Ok? <==> Fits(d) && ValidIds(id, conceptId)
    ensures Fits(d) && ValidIds(id, conceptId) ==>
      var r := ParseText(RenderText(d), id, conceptId).value;
      && r.script == RenderText(d)
      && r.draft.beats == Reread(PrintedBeats(d))
      && r.draft.callToAction == LastCta(PrintedBeats(d), "")
  {
    PrintedBeatsReturn(d);
    RereadDraftValid(d, Strip(id), Strip(conceptId));
  }

  /** A second round changes nothing: the parsed draft prints the same text, which parses to the same
      result. */
  lemma SecondRoundIsIdentity(d: Draft, id: string, conceptId: string)
    requires ValidDraft(d) && DraftPrintable(d) && Fits(d) && ValidIds(id, conceptId)
    ensures
      var first := ParseText(RenderText(d), id, conceptId);
      && first.Ok?
      && RenderText(first.value.draft) == RenderText(d)
      && ParseText(RenderText(first.value.draft), id, conceptId) == first
  {
    ParseUndoesPrint(d, id, conceptId);
    SameLines(d, ParseText(RenderText(d), id, conceptId).value.draft);
  }

  lemma SameLines(d: Draft, d': Draft)
    requires d'.beats == Reread(PrintedBeats(d))
    ensures RenderText(d') == RenderText(d)
  {
    PrintedHasCta(d);
    LinesOfPrinted(d);
    RereadLines(PrintedBeats(d));
    LinesWithCta(d');
  }

  lemma LinesWithCta(d: Draft)
    requires HasCta(d.beats)
    ensures Lines(d) == BeatLines(d.beats)
  {
  }

  lemma RereadLines(beats: seq<Beat>)
    ensures BeatLines(Reread(beats)) == BeatLines(beats)
  {
  }

  // ----- Arbitrary text -----

  /** A beat as the parser makes it. */
  ghost predicate ParsedBeat(b: Beat) {
    Trimmed(b.text) && b.text != "" && b.seconds == SecondsFor(b.text)
  }

  lemma ParsedLineShape(line: string)
    requires ParseLine(line).Some?
    ensures ParsedBeat(ParseLine(line).value)
    ensures NoBreak(line) ==> NoBreak(ParseLine(line).value.text)
  {
    var i := Colon(line);
    var content := if i < |line| then line[i + 1..] else line;
    StripTrims(content);
    if NoBreak(line) {
      SliceNoBreak(line, |line| - |content|, |line|);
      StripNoBreak(content);
    }
  }

  lemma SliceNoBreak(s: string, i: nat, j: nat)
    requires NoBreak(s) && i <= j <= |s|
    ensures NoBreak(s[i..j])
  {
    assert forall k :: 0 <= k < j - i ==> s[i..j][k] == s[i + k];
  }

  lemma StripNoBreak(s: string)
    requires NoBreak(s)
    ensures NoBreak(Strip(s))
  {
    StripTrims(s);
    var i, j :| 0 <= i <= j <= |s| && Strip(s) == s[i..j];
    SliceNoBreak(s, i, j);
  }

  lemma {:induction false} CollectedFrom(parse: string -> Option<Beat>, lines: seq<string>, i: nat) returns (k: nat)
    requires i < |Collect(parse, lines)|
    ensures k < |lines| && parse(lines[k]) == Some(Collect(parse, lines)[i])
  {
    var n := |lines| - 1;
    if i < |Collect(parse, lines[..n])| { k := CollectedFrom(parse, lines[..n], i); } else { k := n; }
  }

  lemma {:induction false} SplitHasNoBreaks(s: string)
    ensures forall i :: 0 <= i < |SplitLines(s)| ==> NoBreak(SplitLines(s)[i])
    decreases |s|
  {
    if s != "" {
      LineEndShape(s);
      SplitHasNoBreaks(AfterLine(s));
    }
  }

  lemma ParsedBeatsShape(s: string)
    ensures
      var beats := ParseLines(SplitLines(s));
      forall i :: 0 <= i < |beats| ==> ParsedBeat(beats[i]) && NoBreak(beats[i].text)
  {
    var lines := SplitLines(s);
    var beats := ParseLines(lines);
    SplitHasNoBreaks(s);
    forall i | 0 <= i < |beats| ensures ParsedBeat(beats[i]) && NoBreak(beats[i].text) {
      var k := CollectedFrom(ParseLine, lines, i);
      ParsedLineShape(lines[k]);
    }
  }

  /** The parser's beats are what the lines say or, when no line says anything, the whole text. */
  lemma BeatsShape(s: string)
    ensures
      var beats := BeatsOf(s);
      || beats == [Beat(Body, s, 1)]
      || forall i :: 0 <= i < |beats| ==> ParsedBeat(beats[i]) && NoBreak(beats[i].text)
  {
    ParsedBeatsShape(s);
    if ParseLines(SplitLines(s)) != [] { assert BeatsOf(s) == ParseLines(SplitLines(s)); }
  }

  /** Whatever the text, a parsed script is the trimmed text with a draft that satisfies every limit
      of the contract, in particular 1 to 120 seconds for each beat. */
  lemma ParsedDraftIsValid(text: string, id: string, conceptId: string)
    requires ParseText(text, id, conceptId).Ok?
    ensures
      var r := ParseText(text, id, conceptId).value;
      && r.script == Strip(text) && r.draft == DraftFrom(BeatsOf(Strip(text)), Strip(id), Strip(conceptId))
      && ValidDraft(r.draft) && ValidIds(id, conceptId)
      && (forall i :: 0 <= i < |r.draft.beats| ==> 1 <= r.draft.beats[i].seconds <= 120)
  {
    var d := ParseText(text, id, conceptId).value.draft;
    assert forall i :: 0 <= i < |d.beats| ==> ValidBeat(d.beats[i]);
  }

  lemma StableDraft(d: Draft)
    requires ValidDraft(d) && HasCta(d.beats) && d == DraftFrom(d.beats, d.id, d.conceptId)
    requires forall i :: 0 <= i < |d.beats| ==> ParsedBeat(d.beats[i]) && NoBreak(d.beats[i].text)
    ensures DraftPrintable(d) && Fits(d) && Reread(PrintedBeats(d)) == d.beats
  {
    var last := d.beats[|d.beats| - 1].text;
    LastCtaOf(d.beats, last, "");
    assert PrintedBeats(d) == d.beats;
    var i :| 0 <= i < |d.beats| && LastCta(d.beats, last) == d.beats[i].text;
    assert NoBreak(d.beats[i].text);
  }

  /** Text that contains a call-to-action beat is understood once and for all: printing what was
      parsed and parsing it again gives the same draft. */
  lemma ReparseIsStable(text: string, id: string, conceptId: string)
    requires ParseText(text, id, conceptId).Ok?
    requires HasCta(ParseText(text, id, conceptId).value.draft.beats)
    ensures
      var d := ParseText(text, id, conceptId).value.draft;
      ParseText(RenderText(d), id, conceptId) == Ok(ScriptResult(RenderText(d), d))
  {
    var d := ParseText(text, id, conceptId).value.draft;
    ParsedDraftIsValid(text, id, conceptId);
    BeatsShape(Strip(text));
    StableDraft(d);
    ParseUndoesPrint(d, id, conceptId);
  }

  /** Parsed text without a call-to-action beat is not: printing it adds one, so parsing again cannot
      give the same draft. The other beats return unless no line of the text says anything, when
      the whole text was one beat; of that only the first line returns. */
  lemma ReparseAddsCta(text: string, id: string, conceptId: string)
    requires ParseText(text, id, conceptId).Ok?
    requires !HasCta(ParseText(text, id, conceptId).value.draft.beats)
    ensures
      var d := ParseText(text, id, conceptId).value.draft;
      var again := ParseText(RenderText(d), id, conceptId);
      && (again.Ok? <==> |d.beats| < 20)
      && (again.Ok? && ParseLines(SplitLines(Strip(text))) != [] ==>
            again.value.draft.beats == d.beats + [Beat(Cta, d.callToAction, SecondsFor(d.callToAction))])
      && (again.Ok? && ParseLines(SplitLines(Strip(text))) == [] ==>
            again.value.draft.beats == TwiceFirstLine(Strip(text)))
  {
    if ParseLines(SplitLines(Strip(text))) != [] {
      SpokenReparse(text, id, conceptId);
    } else {
      SilentReparse(text, id, conceptId);
    }
  }

  lemma SpokenReparse(text: string, id: string, conceptId: string)
    requires ParseText(text, id, conceptId).Ok?
    requires !HasCta(ParseText(text, id, conceptId).value.draft.beats)
    requires ParseLines(SplitLines(Strip(text))) != []
    ensures
      var d := ParseText(text, id, conceptId).value.draft;
      var again := ParseText(RenderText(d), id, conceptId);
      && (again.Ok? <==> |d.beats| < 20)
      && (again.Ok? ==> again.value.draft.beats == d.beats + [Beat(Cta, d.callToAction, SecondsFor(d.callToAction))])
  {
    var d := ParseText(text, id, conceptId).value.draft;
    ParsedDraftIsValid(text, id, conceptId);
    ParsedBeatsShape(Strip(text));
    UnstableDraft(d);
    ParseUndoesPrint(d, id, conceptId);
  }

  // ----- Text in which no line says anything -----

  /** The first line, trimmed. */
  function FirstLine(s: string): string {
    Strip(s[..LineEnd(s)])
  }

  /** The first line as a body and as a call to action. */
  function TwiceFirstLine(s: string): seq<Beat> {
    var line := FirstLine(s);
    [Beat(Body, line, SecondsFor(line)), Beat(Cta, line, SecondsFor(line))]
  }

  /** Two lines for the same text, joined. */
  function TwoLines(s: string): string {
    Line(Body, s) + "\n" + Line(Cta, s)
  }

  lemma BreaksAreSpaces(c: char)
    requires IsBreak(c)
    ensures IsSpace(c)
  {
  }

  /** Trimmed text is solid and its first line is not blank. */
  lemma TrimmedShape(s: string)
    requires Trimmed(s) && s != ""
    ensures Solid(s) && LineEnd(s) > 0 && Trimmed(FirstLine(s)) && 0 < |FirstLine(s)| <= |s|
  {
    if IsBreak(s[|s| - 1]) { BreaksAreSpaces(s[|s| - 1]); }
    if IsBreak(s[0]) { BreaksAreSpaces(s[0]); }
    var line := s[..LineEnd(s)];
    StripTrims(line);
    assert line[0] == s[0];
  }

  /** The text is the other one with n characters in front that are no breaks. */
  ghost predicate Longer(t: string, s: string, n: nat) {
    |t| == n + |s| && t[n..] == s && forall k :: 0 <= k < n ==> !IsBreak(t[k])
  }

  lemma SameEnd(t: string, s: string, n: nat)
    requires Longer(t, s, n)
    ensures LineEnd(t) == n + LineEnd(s)
  {
    var i := LineEnd(s);
    LineEndShape(s);
    forall k | 0 <= k < n + i ensures !IsBreak(t[k]) {
      if k >= n { assert t[n..][k - n] == t[k]; }
    }
    if i < |s| { assert t[n..][i] == t[n + i]; }
    LineEndOf(t, n + i);
  }

  lemma SameBreak(t: string, s: string, n: nat, i: nat)
    requires |t| == n + |s| && t[n..] == s && i < |s|
    ensures BreakLength(t, n + i) == BreakLength(s, i)
  {
    assert t[n..][i] == t[n + i];
    if i + 1 < |s| { assert t[n..][i + 1] == t[n + i + 1]; }
  }

  lemma SameAfter(t: string, s: string, n: nat, i: nat)
    requires |t| == n + |s| && t[n..] == s && LineEnd(t) == n + i && LineEnd(s) == i
    ensures AfterLine(t) == AfterLine(s)
  {
    if i < |s| {
      AfterAt(s, i);
      AfterAt(t, n + i);
      SameBreak(t, s, n, i);
      assert t[n..][i + BreakLength(s, i)..] == t[n + (i + BreakLength(s, i))..];
    }
  }

  lemma SplitAt(t: string, i: nat, rest: string)
    requires t != "" && LineEnd(t) == i && AfterLine(t) == rest
    ensures SplitLines(t) == [t[..i]] + SplitLines(rest)
  {
  }

  /** Text put in front of the first line leaves the other lines alone. */
  lemma SplitLonger(t: string, first: string, s: string, n: nat)
    requires Longer(t, s, n) && s != "" && t[..n + LineEnd(s)] == first
    ensures SplitLines(t) == [first] + SplitLines(AfterLine(s))
  {
    SameEnd(t, s, n);
    SameAfter(t, s, n, LineEnd(s));
    SplitAt(t, n + LineEnd(s), AfterLine(s));
  }

  lemma {:induction false} CollectConcat(parse: string -> Option<Beat>, a: seq<string>, b: seq<string>)
    ensures Collect(parse, a + b) == Collect(parse, a) + Collect(parse, b)
  {
    if b == [] {
      assert a + b == a;
    } else {
      var n := |b| - 1;
      assert (a + b)[..|a| + n] == a + b[..n];
      CollectConcat(parse, a, b[..n]);
    }
  }

  lemma CollectSingle(parse: string -> Option<Beat>, line: string)
    ensures Collect(parse, [line]) == match parse(line) case None => [] case Some(b) => [b]
  {
    assert [line][..0] == [];
  }

  /** Replacing the first of lines that yield nothing. */
  lemma SilentRest(parse: string -> Option<Beat>, first: string, first': string, rest: seq<string>, b: Beat)
    requires Collect(parse, [first] + rest) == [] && parse(first') == Some(b)
    ensures Collect(parse, [first'] + rest) == [b]
  {
    CollectConcat(parse, [first], rest);
    CollectConcat(parse, [first'], rest);
    CollectSingle(parse, first');
  }

  lemma HeadingParts(heading: string, s: string, i: nat)
    requires NoBreak(heading) && i <= |s|
    ensures
      var t, n := heading + ":" + (" " + s), |heading| + 2;
      Longer(t, s, n) && t[..n + i] == heading + ":" + (" " + s[..i])
  {
    var t, n := heading + ":" + (" " + s), |heading| + 2;
    assert forall k :: 0 <= k < |heading| ==> t[k] == heading[k];
    assert t[n - 2] == ':' && t[n - 1] == ' ';
  }

  lemma HeadingSplit(heading: string, s: string, line: string, first: string)
    requires NoBreak(heading) && s != "" && line == heading + ":" + (" " + s)
    requires first == heading + ":" + (" " + s[..LineEnd(s)])
    ensures SplitLines(line) == [first] + SplitLines(AfterLine(s))
  {
    HeadingParts(heading, s, LineEnd(s));
    SplitLonger(line, first, s, |heading| + 2);
  }

  /** A printed text of which only the first line says something parses to that line's beat. */
  lemma SilentTail(section: Section, s: string)
    requires Trimmed(s) && s != "" && ParseLines(SplitLines(s)) == []
    ensures ParseLines(SplitLines(Line(section, s))) == [Beat(section, FirstLine(s), SecondsFor(FirstLine(s)))]
  {
    var first, rest := s[..LineEnd(s)], SplitLines(AfterLine(s));
    LabelIsRead(section, section.Label());
    HeadingSplit(section.Label(), s, Line(section, s), Line(section, first));
    TrimmedShape(s);
    LineParses(section, first);
    SilentRest(ParseLine, first, Line(section, first), rest, Beat(section, FirstLine(s), SecondsFor(FirstLine(s))));
  }

  lemma LineIsSolid(section: Section, s: string)
    requires Trimmed(s) && s != ""
    ensures Solid(Line(section, s))
  {
    TrimmedShape(s);
    assert Line(section, s)[|Line(section, s)| - 1] == s[|s| - 1];
  }

  lemma TwoLinesParse(s: string)
    requires Trimmed(s) && s != "" && ParseLines(SplitLines(s)) == []
    ensures ParseLines(SplitLines(TwoLines(s))) == TwiceFirstLine(s)
  {
    LineIsSolid(Body, s);
    SplitAtNewline(Line(Body, s), Line(Cta, s));
    CollectConcat(ParseLine, SplitLines(Line(Body, s)), SplitLines(Line(Cta, s)));
    SilentTail(Body, s);
    SilentTail(Cta, s);
  }

  lemma TwoLinesTrimmed(s: string)
    requires Trimmed(s) && s != ""
    ensures Strip(TwoLines(s)) == TwoLines(s) != ""
  {
    var both := TwoLines(s);
    LabelIsRead(Body, Body.Label());
    assert both[0] == Body.Label()[0] && both[|both| - 1] == s[|s| - 1];
    StripFixed(both);
  }

  lemma TwiceFirstLineValid(s: string, id: string, conceptId: string)
    requires Trimmed(s) && 0 < |s| <= 500
    ensures ValidDraft(DraftFrom(TwiceFirstLine(s), id, conceptId))
  {
    TrimmedShape(s);
    var beats := TwiceFirstLine(s);
    assert beats[..1] == [beats[0]] && [beats[0]][..0] == [];
    assert TotalSeconds([beats[0]]) == beats[0].seconds;
  }

  lemma JoinTwo(a: string, b: string)
    ensures JoinLines([a, b]) == a + "\n" + b
  {
    assert [a, b][1..] == [b];
  }

  lemma PrintedSilent(d: Draft)
    requires d.beats == [Beat(Body, d.callToAction, 1)]
    ensures RenderText(d) == TwoLines(d.callToAction)
  {
    assert !HasCta(d.beats);
    assert Lines(d) == [Line(Body, d.callToAction), Line(Cta, d.callToAction)];
    JoinTwo(Line(Body, d.callToAction), Line(Cta, d.callToAction));
  }

  lemma ParseOf(text: string, id: string, conceptId: string, beats: seq<Beat>)
    requires Strip(text) == text != "" && beats != [] && ParseLines(SplitLines(text)) == beats
    requires ValidDraft(DraftFrom(beats, Strip(id), Strip(conceptId))) && ValidIds(id, conceptId)
    ensures ParseText(text, id, conceptId).Ok? && ParseText(text, id, conceptId).value.draft.beats == beats
  {
  }

  /** The draft of text in which no line says anything. */
  lemma SilentDraft(text: string, id: string, conceptId: string)
    requires ParseText(text, id, conceptId).Ok? && ParseLines(SplitLines(Strip(text))) == []
    ensures
      var d := ParseText(text, id, conceptId).value.draft;
      && ValidIds(id, conceptId)
      && d.beats == [Beat(Body, Strip(text), 1)] && d.callToAction == Strip(text) && |Strip(text)| <= 500
  {
    var s := Strip(text);
    NoCtaFallsBack([Beat(Body, s, 1)], s);
  }

  lemma SilentReparse(text: string, id: string, conceptId: string)
    requires ParseText(text, id, conceptId).Ok? && ParseLines(SplitLines(Strip(text))) == []
    ensures
      var d := ParseText(text, id, conceptId).value.draft;
      var again := ParseText(RenderText(d), id, conceptId);
      |d.beats| == 1 && again.Ok? && again.value.draft.beats == TwiceFirstLine(Strip(text))
  {
    SilentDraft(text, id, conceptId);
    StripTrims(text);
    PrintedSilent(ParseText(text, id, conceptId).value.draft);
    TwoLinesReparse(Strip(text), id, conceptId);
  }

  lemma TwoLinesReparse(s: string, id: string, conceptId: string)
    requires Trimmed(s) && 0 < |s| <= 500 && ParseLines(SplitLines(s)) == [] && ValidIds(id, conceptId)
    ensures
      var again := ParseText(TwoLines(s), id, conceptId);
      again.Ok? && again.value.draft.beats == TwiceFirstLine(s)
  {
    TwoLinesParse(s);
    TwoLinesTrimmed(s);
    TwiceFirstLineValid(s, Strip(id), Strip(conceptId));
    ParseOf(TwoLines(s), id, conceptId, TwiceFirstLine(s));
  }

  lemma UnstableDraft(d: Draft)
    requires ValidDraft(d) && !HasCta(d.beats) && d == DraftFrom(d.beats, d.id, d.conceptId)
    requires forall i :: 0 <= i < |d.beats| ==> ParsedBeat(d.beats[i]) && NoBreak(d.beats[i].text)
    ensures DraftPrintable(d) && (Fits(d) <==> |d.beats| < 20)
    ensures Reread(PrintedBeats(d)) == d.beats + [Beat(Cta, d.callToAction, SecondsFor(d.callToAction))]
  {
    var last := d.beats[|d.beats| - 1];
    NoCtaFallsBack(d.beats, last.text);
    assert d.callToAction == last.text && NoBreak(last.text);
    assert forall i :: 0 <= i < |d.beats| ==> Printable(d.beats[i]);
  }

  lemma {:induction false} NoCtaFallsBack(beats: seq<Beat>, default: string)
    requires !HasCta(beats)
    ensures LastCta(beats, default) == default
  {
    if beats != [] { NoCtaFallsBack(beats[..|beats| - 1], default); }
  }

  // ----- What is printed -----

  /** A line is the section in capitals, a colon, a space and the text. */
  lemma LineIs(section: Section, text: string)
    ensures Line(section, text) ==
      (match section case Hook => "HOOK: " case Body => "BODY: " case Cta => "CTA: ") + text
  {
    match section
    case Hook => assert "HOOK" + ":" + (" " + text) == "HOOK: " + text;
    case Body => assert "BODY" + ":" + (" " + text) == "BODY: " + text;
    case Cta => assert "CTA" + ":" + (" " + text) == "CTA: " + text;
  }

  /** Lines are separated by single line feeds. */
  lemma JoinNext(line: string, rest: seq<string>)
    ensures JoinLines([line]) == line
    ensures rest != [] ==> JoinLines([line] + rest) == line + "\n" + JoinLines(rest)
  {
    assert ([line] + rest)[1..] == rest;
  }

  // ----- What the parser makes of any text -----

  ghost predicate IsBlank(s: string) {
    forall k :: 0 <= k < |s| ==> IsSpace(s[k])
  }

  /** The beat for a heading and what is said under it: hook and call to action by name in any case,
      anything else is body; nothing for blank text. */
  ghost function Said(heading: string, spoken: string): Option<Beat> {
    if IsBlank(spoken) then None
    else
      var name := Lower(Strip(heading));
      var section := if name == "hook" then Hook else if name == "cta" then Cta else Body;
      Some(Beat(section, Strip(spoken), SecondsFor(Strip(spoken))))
  }

  lemma {:induction false} NoColon(s: string)
    requires ':' !in s
    ensures Colon(s) == |s|
  {
    if s != "" { NoColon(s[1..]); }
  }

  /** A line says what follows its first colon under the heading before it; a line without a colon says
      all of itself under itself. */
  lemma LineMeans(heading: string, content: string)
    requires ':' !in heading
    ensures ParseLine(heading + ":" + content) == Said(heading, content)
    ensures ParseLine(heading) == Said(heading, heading)
  {
    var line := heading + ":" + content;
    ColonAfter(heading, content);
    assert line[..|heading|] == heading && line[|heading| + 1..] == content;
    StripBlank(content);
    NoColon(heading);
    assert heading[..|heading|] == heading;
    StripBlank(heading);
  }

  /** Text is cut into lines at every break; a carriage return and the line feed after it are one. */
  lemma SplitAtBreak(line: string, c: char, rest: string)
    requires NoBreak(line) && IsBreak(c)
    ensures SplitLines(line + [c] + rest) ==
      [line] + SplitLines(if c == '\r' && rest != "" && rest[0] == '\n' then rest[1..] else rest)
  {
    var s, i := line + [c] + rest, |line|;
    assert s[i] == c && s[..i] == line && s[i + 1..] == rest;
    assert forall k :: 0 <= k < i ==> s[k] == line[k];
    LineEndOf(s, i);
    AfterAt(s, i);
    if rest != "" { assert s[i + 1] == rest[0] && s[i + 2..] == rest[1..]; }
  }

  /** The beats of a text are those its lines say, or the whole text as one body beat of a second when
      they say nothing. */
  lemma BeatsMean(s: string)
    ensures
      var said := Collect(ParseLine, SplitLines(s));
      BeatsOf(s) == if |said| > 0 then said else [Beat(Body, s, 1)]
  {
  }

  ghost predicate StartsWord(s: string, i: int) {
    0 <= i < |s| && !IsSpace(s[i]) && (i == 0 || IsSpace(s[i - 1]))
  }

  ghost function WordStarts(s: string): set<int> {
    set i | 0 <= i < |s| && StartsWord(s, i)
  }

  lemma SameStart(s: string, n: nat, i: int)
    requires n <= |s| && i < n
    ensures StartsWord(s[..n], i) == StartsWord(s, i)
  {
  }

  lemma WordStartsNext(s: string, n: nat)
    requires |s| == n + 1
    ensures WordStarts(s) == WordStarts(s[..n]) + if StartsWord(s, n) then {n as int} else {}
  {
    forall i | 0 <= i < n ensures StartsWord(s[..n], i) == StartsWord(s, i) {
      SameStart(s, n, i);
    }
  }

  /** Words are counted where they start. */
  lemma {:induction false} WordsAreCounted(s: string)
    ensures WordCount(s) == |WordStarts(s)|
  {
    if s != "" {
      var n := |s| - 1;
      WordsAreCounted(s[..n]);
      WordStartsNext(s, n);
      assert n !in WordStarts(s[..n]);
    }
  }

  /** The beat at position k is the last call to action. */
  ghost predicate IsLastCta(beats: seq<Beat>, k: int) {
    0 <= k < |beats| && beats[k].section == Cta && forall j :: k < j < |beats| ==> beats[j].section != Cta
  }

  lemma {:induction false} FindsLastCta(beats: seq<Beat>, default: string) returns (k: nat)
    requires HasCta(beats)
    ensures IsLastCta(beats, k) && LastCta(beats, default) == beats[k].text
  {
    var n := |beats| - 1;
    if beats[n].section == Cta {
      k := n;
    } else {
      var i :| 0 <= i < |beats| && beats[i].section == Cta;
      assert beats[..n][i].section == Cta;
      k := FindsLastCta(beats[..n], default);
    }
  }

  /** The call to action is what the last such beat says, or else what the last beat says. */
  lemma CallToActionMeans(beats: seq<Beat>, default: string)
    ensures HasCta(beats) ==> exists k :: IsLastCta(beats, k) && LastCta(beats, default) == beats[k].text
    ensures !HasCta(beats) ==> LastCta(beats, default) == default
  {
    if HasCta(beats) { var k := FindsLastCta(beats, default); } else { NoCtaFallsBack(beats, default); }
  }

  lemma {:induction false} SecondsAdd(a: seq<Beat>, b: seq<Beat>)
    ensures TotalSeconds(a + b) == TotalSeconds(a) + TotalSeconds(b)
  {
    if b == [] {
      assert a + b == a;
    } else {
      assert (a + b)[..|a + b| - 1] == a + b[..|b| - 1];
      SecondsAdd(a, b[..|b| - 1]);
    }
  }

  /** The duration of a draft is the sum of its beats' seconds, cut to three minutes. */
  lemma DurationMeans(first: Beat, rest: seq<Beat>, id: string, conceptId: string)
    ensures TotalSeconds([]) == 0 && TotalSeconds([first] + rest) == first.seconds + TotalSeconds(rest)
    ensures
      var total, duration := TotalSeconds([first] + rest), DraftFrom([first] + rest, id, conceptId).estimatedDuration;
      duration <= 180 && duration <= total && (duration == total || duration == 180)
  {
    SecondsAdd([first], rest);
    assert [first][..0] == [];
    assert TotalSeconds([first]) == TotalSeconds([]) + first.seconds;
  }

  lemma CallToActionShape(beats: seq<Beat>)
    requires beats != [] && forall i :: 0 <= i < |beats| ==> Trimmed(beats[i].text) && beats[i].text != ""
    ensures Trimmed(CallToAction(beats)) && CallToAction(beats) != ""
  {
    CallToActionMeans(beats, beats[|beats| - 1].text);
  }

  lemma BeatsAreSpoken(s: string)
    requires Trimmed(s) && s != ""
    ensures
      var beats := BeatsOf(s);
      forall i :: 0 <= i < |beats| ==> Trimmed(beats[i].text) && beats[i].text != "" && 1 <= beats[i].seconds <= 120
  {
    BeatsShape(s);
  }

  /** The lengths that can make parsed beats unacceptable. */
  ghost predicate WithinLimits(beats: seq<Beat>)
    requires beats != []
  {
    && |beats| <= 20 && |CallToAction(beats)| <= 500
    && forall i :: 0 <= i < |beats| ==> |beats[i].text| <= 2000
  }

  lemma ValidIffWithinLimits(beats: seq<Beat>, id: string, conceptId: string)
    requires beats != []
    requires forall i :: 0 <= i < |beats| ==>
      Trimmed(beats[i].text) && beats[i].text != "" && 1 <= beats[i].seconds <= 120
    ensures ValidDraft(DraftFrom(beats, id, conceptId)) <==> WithinLimits(beats)
  {
    CallToActionShape(beats);
    SecondsAddUp(beats);
    assert forall i :: 0 <= i < |beats| ==> (ValidBeat(beats[i]) <==> |beats[i].text| <= 2000);
  }

  /** Text is refused as blank exactly when it is blank, and otherwise accepted exactly when its ids are
      acceptable and its beats are within the limits of length and number; timing never fails. */
  lemma AcceptedIff(text: string, id: string, conceptId: string)
    ensures
      var r := ParseText(text, id, conceptId);
      && (r == Err(BlankText) <==> IsBlank(text))
      && (r.Ok? <==>
            && !IsBlank(text) && WithinLimits(BeatsOf(Strip(text)))
            && 1 <= |Strip(id)| <= 200 && 1 <= |Strip(conceptId)| <= 200)
  {
    StripBlank(text);
    StripTrims(text);
    if Strip(text) != "" {
      BeatsAreSpoken(Strip(text));
      ValidIffWithinLimits(BeatsOf(Strip(text)), Strip(id), Strip(conceptId));
    }
  }
}
