/** Disabling and restoring Herd's PHP lines in a shell profile. */
module ShellProfile {
  import opened Wrappers
  import opened Text

  datatype Failure = Incomplete | NotRecoverable | MultipleLines
  type Outcome = Result<string, Failure>

  const HERD_BLOCK_START := "# >>> fabDev disabled Herd PHP PATH >>>"
  const HERD_BLOCK_END := "# <<< fabDev disabled Herd PHP PATH <<<"

  // ---------------------------------------------------------------------------------------------
  // Lines
  // ---------------------------------------------------------------------------------------------

  /** The text up to and including its first line feed. */
  function FirstSegment(s: string): (r: string)
    requires s != ""
    ensures r != "" && r <= s && '\n' !in r[..|r| - 1]
    ensures r == s || r[|r| - 1] == '\n'
  {
    if s[0] == '\n' || |s| == 1 then s[..1] else [s[0]] + FirstSegment(s[1..])
  }

  function Segments(s: string): seq<string>
    decreases |s|
  {
    if s == "" then [] else var f := FirstSegment(s); [f] + Segments(s[|f|..])
  }

  predicate Terminated(segment: string) {
    segment != "" && segment[|segment| - 1] == '\n'
  }

  /** The line of a segment: a line feed and one carriage return before it are dropped. */
  function Line(segment: string): string {
    if Terminated(segment) then
      var raw := segment[..|segment| - 1];
      if raw != "" && raw[|raw| - 1] == '\r' then raw[..|raw| - 1] else raw
    else segment
  }

  function Ending(segment: string): string {
    if Terminated(segment) then "\n" else ""
  }

  function Normalized(s: string): string {
    seq(|s|, i requires 0 <= i < |s| =>
      if s[i] == '\\' then '/' else LowerChar(s[i]))
  }

  predicate IsHerdLine(line: string) {
    var trimmed := Trim(line);
    !("#" <= trimmed) && Contains(Normalized(trimmed), "path") && Contains(Normalized(trimmed), "herd/bin")
  }

  ghost predicate HasActiveHerdPath(contents: string) {
    exists s :: s in Segments(contents) && IsHerdLine(Line(s))
  }

  // ---------------------------------------------------------------------------------------------
  // Marking and restoring
  // ---------------------------------------------------------------------------------------------

  function BlockOf(startMarker: string, endMarker: string, line: string, ending: string): string {
    startMarker + ending + "# " + line + ending + endMarker + ending
  }

  function Block(line: string, ending: string): string {
    BlockOf(HERD_BLOCK_START, HERD_BLOCK_END, line, ending)
  }

  function MarkedSegment(segment: string): string {
    if IsHerdLine(Line(segment)) then Block(Line(segment), Ending(segment)) else segment
  }

  function MarkAll(segments: seq<string>): string {
    if segments == [] then "" else MarkedSegment(segments[0]) + MarkAll(segments[1..])
  }

  datatype Step = Finished | Failed(failure: Failure) | Replaced(text: string)

  /** The line that a block's body disables. */
  function Original(body: string): (r: Outcome)
    ensures r.Ok? ==> |r.value| <= |body|
  {
    var trimmed := TrimEndBreaks(TrimStartBreaks(body));
    if !("# " <= trimmed) then Err(NotRecoverable)
    else if '\n' in trimmed[2..] || '\r' in trimmed[2..] then Err(MultipleLines)
    else Ok(trimmed[2..])
  }

  function LeadingBreak(s: string): (r: string)
    ensures r <= s
  {
    if "\r\n" <= s then "\r\n" else if "\n" <= s then "\n" else ""
  }

  function ReplaceRange(s: string, from: nat, to: nat, replacement: string): (r: string)
    requires from <= to <= |s|
    ensures |r| == |s| - (to - from) + |replacement|
  {
    s[..from] + replacement + s[to..]
  }

  /** Puts the disabled line back in place of the block that ends at `to`, before `tail`. */
  function Rebuilt(s: string, start: nat, to: nat, body: string, tail: string): (r: Step)
    requires start + |body| < to && to + |tail| == |s|
    ensures !r.Finished? && (r.Replaced? ==> |r.text| < |s|)
  {
    match Original(body)
    case Err(f) => Failed(f)
    case Ok(original) =>
      var ending := LeadingBreak(tail);
      Replaced(ReplaceRange(s, start, to + |ending|, original + ending))
  }

  function RestoreBlock(s: string, startMarker: string, endMarker: string): (r: Step)
    requires startMarker != ""
    ensures r.Finished? <==> Free(s, startMarker)
    ensures r.Replaced? ==> |r.text| < |s|
  {
    match Find(s, startMarker)
    case None => Finished
    case Some(start) =>
      var bodyStart := start + |startMarker|;
      var rest := s[bodyStart..];
      match Find(rest, endMarker)
      case None => Failed(Incomplete)
      case Some(offset) =>
        var end := offset + |endMarker|;
        Rebuilt(s, start, bodyStart + end, rest[..offset], rest[end..])
  }

  /** One turn of the restore loop: the first block becomes its line again. */
  function RestoreOnce(s: string): (r: Step)
    ensures r.Finished? <==> Free(s, HERD_BLOCK_START)
    ensures r.Replaced? ==> |r.text| < |s|
  {
    RestoreBlock(s, HERD_BLOCK_START, HERD_BLOCK_END)
  }

  function Restored(s: string): Outcome
    decreases |s|
  {
    match RestoreOnce(s)
    case Finished => Ok(s)
    case Failed(f) => Err(f)
    case Replaced(text) => Restored(text)
  }

  function Marked(s: string): Outcome {
    match Restored(s)
    case Err(f) => Err(f)
    case Ok(text) => Ok(MarkAll(Segments(text)))
  }

  method RestoreHerdPhpPaths(contents: string) returns (r: Outcome)
    ensures r == Restored(contents)
  {
    var updated := contents;
    while true
      invariant Restored(contents) == Restored(updated)
      decreases |updated|
    {
      match RestoreOnce(updated)
      case Finished => return Ok(updated);
      case Failed(f) => return Err(f);
      case Replaced(text) => updated := text;
    }
  }

  method MarkHerdPhpPaths(contents: string) returns (r: Outcome)
    ensures r == Marked(contents)
  {
    var restored := RestoreHerdPhpPaths(contents);
    if restored.Err? {
      return restored;
    }
    var segments := Segments(restored.value);
    var updated := "";
    for k := 0 to |segments|
      invariant updated + MarkAll(segments[k..]) == MarkAll(segments)
    {
      var line, ending := Line(segments[k]), Ending(segments[k]);
      assert segments[k..][0] == segments[k] && segments[k..][1..] == segments[k + 1..];
      ghost var before := updated;
      if IsHerdLine(line) {
        updated := updated + Block(line, ending);
      } else {
        updated := updated + segments[k];
      }
      Assoc(before, MarkedSegment(segments[k]), MarkAll(segments[k + 1..]));
    }
    assert updated + "" == updated;
    return Ok(updated);
  }

  // ---------------------------------------------------------------------------------------------
  // The markers
  // ---------------------------------------------------------------------------------------------

  ghost predicate MarkerFree(s: string) {
    Free(s, HERD_BLOCK_START) && Free(s, HERD_BLOCK_END)
  }

  ghost predicate IsLineMarker(m: string) {
    IsMarker(m) && |m| > 2 && m[1] == ' '
  }

  lemma StartShape()
    ensures IsLineMarker(HERD_BLOCK_START)
  {
  }

  lemma EndShape()
    ensures IsLineMarker(HERD_BLOCK_END)
  {
  }

  /** A line that starts with the end marker without its `# `. */
  predicate LooksLikeEnd(line: string) {
    HERD_BLOCK_END[2..] <= line
  }

  // ---------------------------------------------------------------------------------------------
  // Segments
  // ---------------------------------------------------------------------------------------------

  /** One line: a line feed may only be its last character. */
  ghost predicate IsSegment(s: string) {
    s != "" && forall i :: 0 <= i < |s| - 1 ==> s[i] != '\n'
  }

  ghost predicate AreSegments(segments: seq<string>) {
    && (forall i :: 0 <= i < |segments| ==> IsSegment(segments[i]))
    && (forall i :: 0 <= i < |segments| - 1 ==> Terminated(segments[i]))
  }

  function Concat(segments: seq<string>): string {
    if segments == [] then "" else segments[0] + Concat(segments[1..])
  }

  lemma {:induction false} SegmentsOf(s: string)
    ensures AreSegments(Segments(s)) && Concat(Segments(s)) == s
    decreases |s|
  {
    if s != "" {
      var f := FirstSegment(s);
      var t := s[|f|..];
      SegmentsOf(t);
      assert s == f + t;
      assert Segments(s) == [f] + Segments(t) && ([f] + Segments(t))[1..] == Segments(t);
      assert IsSegment(f);
      assert Terminated(f) || t == "";
    }
  }

  lemma {:induction false} SegmentFree(segments: seq<string>, m: string)
    requires Free(Concat(segments), m)
    ensures forall s :: s in segments ==> Free(s, m)
  {
    if segments != [] {
      var c := Concat(segments[1..]);
      assert "" + segments[0] + c == Concat(segments);
      FreePiece("", segments[0], c, m);
      assert segments[0] + c + "" == Concat(segments);
      FreePiece(segments[0], c, "", m);
      SegmentFree(segments[1..], m);
    }
  }

  lemma SegmentsAppend(s: string, t: string)
    requires IsSegment(s) && (Terminated(s) || t == "")
    ensures Segments(s + t) == [s] + Segments(t)
  {
    FirstSegmentIs(s, t);
    assert (s + t)[|s|..] == t;
  }

  lemma {:induction false} FirstSegmentIs(s: string, t: string)
    requires IsSegment(s) && (Terminated(s) || t == "")
    ensures FirstSegment(s + t) == s
    decreases |s|
  {
    var all := s + t;
    if |s| == 1 {
      assert all[..1] == s;
    } else {
      assert s[0] != '\n' by { assert 0 <= 0 < |s| - 1; }
      assert all[1..] == s[1..] + t;
      FirstSegmentIs(s[1..], t);
      assert [s[0]] + s[1..] == s;
    }
  }

  // ---------------------------------------------------------------------------------------------
  // Restoring one marked line, for any pair of markers
  // ---------------------------------------------------------------------------------------------

  /** Text that ends where a line ends. */
  predicate AtLineStart(p: string) {
    p == "" || p[|p| - 1] == '\n'
  }

  lemma AtSuffix(s: string, m: string, p: string, i: nat)
    requires IsLineMarker(m) && At(p + s, m, i) && |p| == 2 && p == m[..2] && i == 0
    ensures s[..|m| - 2] == m[2..]
  {
    assert (p + s)[..|m|][2..] == s[..|m| - 2];
  }

  /** The disabled line cannot be mistaken for the end of its block. */
  lemma BodyFree(line: string, ending: string, e: string)
    requires IsLineMarker(e) && Free(line, e) && '\n' !in line && !(e[2..] <= line)
    requires ending == "" || ending == "\n"
    ensures Free(ending + "# " + line + ending, e)
  {
    var hashed := "# " + line;
    assert e[..2] == "# ";
    forall i
      ensures !At(hashed, e, i)
    {
      if 2 <= i {
        AtRight("# ", line, e, i);
      } else if At(hashed, e, i) {
        AtChar(hashed, e, i, 0);
        if i == 0 {
          AtSuffix(line, e, "# ", 0);
        }
      }
    }
    FreeEnding(ending, e);
    assert '\n' !in e;
    FreeJoin(hashed, ending, e);
    FreeJoin(ending, hashed + ending, e);
    Assoc(ending, hashed, ending);
    Assoc(ending, "# ", line);
  }

  lemma OriginalOf(line: string, ending: string)
    requires ending == "" || ending == "\n"
    requires '\n' !in line
    ensures Original(ending + "# " + line + ending) ==
      if '\r' in TrimEndBreaks(line) then Err(MultipleLines) else Ok(TrimEndBreaks(line))
  {
    var t := TrimEndBreaks(line);
    TrimBody(ending, "# ", line, ending);
    assert ("# " + t)[2..] == t && ("# " + t)[..2] == "# ";
    assert forall c :: c in t ==> c in line;
  }

  lemma TrimBody(before: string, h: string, line: string, after: string)
    requires h != "" && !IsBreak(h[0]) && !IsBreak(h[|h| - 1])
    requires AllBreaks(before) && AllBreaks(after)
    ensures TrimEndBreaks(TrimStartBreaks(before + h + line + after)) == h + TrimEndBreaks(line)
  {
    var t := TrimEndBreaks(line);
    var cut := line[|t|..];
    TrimEndFacts(line);
    Assoc(before, h, line);
    Assoc(before, h + line, after);
    TrimStartIs(before, h + line + after);
    assert line == t + cut;
    Assoc(h, t, cut);
    Assoc(h + t, cut, after);
    TrimEndIs(h + t, cut + after);
  }

  lemma LeadingBreakOf(ending: string, tail: string)
    requires ending == "" || ending == "\n"
    requires ending == "" ==> tail == ""
    ensures LeadingBreak(ending + tail) == ending
  {
    if ending == "\n" {
      assert (ending + tail)[0] == '\n';
      assert (ending + tail)[..1] == "\n";
    }
  }

  /** One turn of the loop on text whose first block disables `line`. */
  lemma RestoreFirstBlock(p: string, s: string, e: string, line: string, ending: string, tail: string)
    requires IsLineMarker(s) && IsLineMarker(e) && Free(p, s) && AtLineStart(p)
    requires '\n' !in line && Free(line, e) && (ending == "" || ending == "\n") && (ending == "" ==> tail == "")
    ensures RestoreBlock(p + BlockOf(s, e, line, ending) + tail, s, e) ==
      if e[2..] <= line then Failed(NotRecoverable)
      else if '\r' in TrimEndBreaks(line) then Failed(MultipleLines)
      else Replaced(p + TrimEndBreaks(line) + ending + tail)
  {
    RegroupBlock(p, s, e, line, ending, tail);
    if e[2..] <= line {
      RestoreEarly(p, s, e, line, ending, tail);
    } else {
      var body := ending + "# " + line + ending;
      BodyFree(line, ending, e);
      OriginalOf(line, ending);
      RestoreLine(p, s, body, e, ending, tail, Original(body));
    }
  }

  lemma RestoreLine(p: string, s: string, body: string, e: string, ending: string, tail: string, original: Outcome)
    requires s != "" && IsLineMarker(e) && Free(p, s) && AtLineStart(p) && '\n' !in s && Free(body, e)
    requires (ending == "" || ending == "\n") && (ending == "" ==> tail == "") && Original(body) == original
    ensures RestoreBlock(p + s + (body + e + (ending + tail)), s, e) ==
      if original.Err? then Failed(original.error) else Replaced(p + original.value + ending + tail)
  {
    hide RestoreBlock, Rebuilt, Original;
    Located(p, s, body, e, ending + tail);
    RestoreFound(p + s + (body + e + (ending + tail)), s, e, |p|, body, ending + tail);
    RebuiltLine(p, s, body, e, ending, tail, original);
  }

  lemma RestoreEarly(p: string, s: string, e: string, line: string, ending: string, tail: string)
    requires IsLineMarker(s) && IsLineMarker(e) && Free(p, s) && AtLineStart(p)
    requires (ending == "" || ending == "\n") && e[2..] <= line
    ensures RestoreBlock(p + s + (ending + "# " + line + ending + e + (ending + tail)), s, e) == Failed(NotRecoverable)
  {
    var rest := ending + "# " + line + ending + e + (ending + tail);
    var after := EarlyEnd(line, ending, e, e + (ending + tail));
    Assoc(ending + "# " + line + ending, e, ending + tail);
    FreeEnding(ending, e);
    Located(p, s, ending, e, after);
    RestoreFound(p + s + rest, s, e, |p|, ending, after);
    EmptyBody(ending);
  }

  lemma FreeEnding(ending: string, e: string)
    requires IsLineMarker(e) && (ending == "" || ending == "\n")
    ensures Free(ending, e)
  {
    forall i
      ensures !At(ending, e, i)
    {
    }
  }

  lemma EmptyBody(ending: string)
    requires ending == "" || ending == "\n"
    ensures Original(ending) == Err(NotRecoverable)
  {
    TrimStartIs(ending, "");
    assert ending + "" == ending;
  }

  /** The loop's view of text in which both markers of the first block have been found. */
  lemma RestoreFound(text: string, s: string, e: string, start: nat, body: string, tail: string)
    requires s != "" && Find(text, s) == Some(start)
    requires text[start + |s|..] == body + e + tail && Find(body + e + tail, e) == Some(|body|)
    ensures RestoreBlock(text, s, e) == Rebuilt(text, start, start + |s| + |body| + |e|, body, tail)
  {
    hide Rebuilt;
    Slices(body, e, tail);
  }

  lemma Located(p: string, s: string, body: string, e: string, tail: string)
    requires s != "" && IsLineMarker(e) && Free(p, s) && AtLineStart(p) && '\n' !in s && Free(body, e)
    ensures var rest := body + e + tail;
      Find(p + s + rest, s) == Some(|p|) && (p + s + rest)[|p| + |s|..] == rest && Find(rest, e) == Some(|body|)
  {
    FindMiddle(p, s, body + e + tail);
    Slices(p, s, body + e + tail);
    FindMiddle(body, e, tail);
  }

  lemma RebuiltLine(p: string, s: string, body: string, e: string, ending: string, tail: string, original: Outcome)
    requires s != "" && (ending == "" || ending == "\n") && (ending == "" ==> tail == "")
    requires Original(body) == original
    ensures Rebuilt(p + s + (body + e + (ending + tail)), |p|, |p| + |s| + |body| + |e|, body, ending + tail) ==
      if original.Err? then Failed(original.error) else Replaced(p + original.value + ending + tail)
  {
    LeadingBreakOf(ending, tail);
    if original.Ok? {
      ReplacedRange(p, s, body, e, ending, tail, original.value);
    }
  }

  lemma ReplacedRange(p: string, s: string, body: string, e: string, ending: string, tail: string, original: string)
    ensures ReplaceRange(
              p + s + (body + e + (ending + tail)), |p|, |p| + |s| + |body| + |e| + |ending|, original + ending)
         == p + original + ending + tail
  {
    var cut := s + body + e + ending;
    assert p + s + (body + e + (ending + tail)) == p + cut + tail;
    Slices(p, cut, tail);
    Assoc(p, original, ending);
  }

  lemma RegroupBlock(p: string, s: string, e: string, line: string, ending: string, tail: string)
    ensures p + BlockOf(s, e, line, ending) + tail == p + s + (ending + "# " + line + ending + e + (ending + tail))
  {
    var body := ending + "# " + line + ending;
    assert BlockOf(s, e, line, ending) == s + body + e + ending;
    Assoc(s, body, e + ending);
    assert p + (s + body + e + ending) + tail == p + s + body + e + ending + tail;
    assert body + e + (ending + tail) == body + e + ending + tail;
    assert p + s + (body + e + ending + tail) == p + s + body + e + ending + tail;
  }

  /** A line that looks like the end marker closes its own block too early. */
  lemma EarlyEnd(line: string, ending: string, e: string, tail: string) returns (after: string)
    requires IsLineMarker(e) && e[2..] <= line
    ensures ending + "# " + line + ending + tail == ending + e + after
  {
    var cut := line[|e| - 2..];
    after := cut + ending + tail;
    assert line == e[2..] + cut;
    assert e == "# " + e[2..];
    assert "# " + line == e + cut;
    Assoc(ending, "# ", line);
    Assoc(ending, e, cut);
    Assoc(ending + e, cut, ending);
    Assoc(ending + e, cut + ending, tail);
  }

  // ---------------------------------------------------------------------------------------------
  // Marking and then restoring a whole profile
  // ---------------------------------------------------------------------------------------------

  /** A Herd line that comes back as it was: it has no carriage return and cannot be mistaken for
      the end of its own block. */
  predicate Recoverable(segment: string) {
    IsHerdLine(Line(segment)) ==> '\r' !in segment && !LooksLikeEnd(Line(segment))
  }

  lemma LineShape(segment: string)
    requires IsSegment(segment)
    ensures var l, e := Line(segment), Ending(segment);
      && '\n' !in l && (e == "" || e == "\n")
      && (e == "" ==> l == segment)
      && l <= segment && (Terminated(segment) <==> e == "\n")
      && ('\r' !in segment ==> segment == l + e && TrimEndBreaks(l) == l)
  {
    var l := Line(segment);
    if '\r' !in segment {
      assert l != "" ==> l[|l| - 1] in segment;
      TrimEndIs(l, "");
      assert l + "" == l;
    }
  }

  lemma LineFree(segment: string, m: string)
    requires Free(segment, m) && IsSegment(segment)
    ensures Free(Line(segment), m)
  {
    var l := Line(segment);
    LineShape(segment);
    assert segment == "" + l + segment[|l|..];
    FreePiece("", l, segment[|l|..], m);
  }

  lemma FreeExtend(p: string, q: string, m: string)
    requires IsLineMarker(m) && Free(p, m) && Free(q, m) && AtLineStart(p)
    ensures Free(p + q, m)
  {
    assert '\n' !in m;
    FreeJoin(p, q, m);
  }

  /** The restored line of a Herd segment: what is left of it without trailing carriage returns. */
  function RestoredLine(segment: string): string {
    TrimEndBreaks(Line(segment)) + Ending(segment)
  }

  lemma RestoredLineFree(segment: string, m: string)
    requires IsSegment(segment) && Free(segment, m) && IsLineMarker(m)
    ensures Free(RestoredLine(segment), m)
  {
    var l := Line(segment);
    var t := TrimEndBreaks(l);
    LineFree(segment, m);
    TrimEndFacts(l);
    assert l == "" + t + l[|t|..];
    FreePiece("", t, l[|t|..], m);
    LineShape(segment);
    FreeEnding(Ending(segment), m);
    assert '\n' !in m;
    FreeJoin(t, Ending(segment), m);
  }

  /** One turn of the loop on a marked Herd segment. */
  lemma OnceMarked(p: string, segment: string, tail: string)
    requires Free(p, HERD_BLOCK_START) && AtLineStart(p) && IsSegment(segment) && Free(segment, HERD_BLOCK_END)
    requires IsHerdLine(Line(segment)) && (Terminated(segment) || tail == "")
    ensures RestoreOnce(p + MarkedSegment(segment) + tail) ==
      if LooksLikeEnd(Line(segment)) then Failed(NotRecoverable)
      else if '\r' in TrimEndBreaks(Line(segment)) then Failed(MultipleLines)
      else Replaced(p + RestoredLine(segment) + tail)
  {
    hide RestoreBlock, IsHerdLine;
    StartShape();
    EndShape();
    LineShape(segment);
    LineFree(segment, HERD_BLOCK_END);
    RestoreFirstBlock(p, HERD_BLOCK_START, HERD_BLOCK_END, Line(segment), Ending(segment), tail);
    Assoc(p, TrimEndBreaks(Line(segment)), Ending(segment));
  }

  lemma FreeNext(p: string, g: string)
    requires Free(p, HERD_BLOCK_START) && Free(g, HERD_BLOCK_START) && AtLineStart(p)
    ensures Free(p + g, HERD_BLOCK_START)
  {
    StartShape();
    FreeExtend(p, g, HERD_BLOCK_START);
  }

  /** A marked line that can be restored at all. */
  predicate Restorable(segment: string) {
    IsHerdLine(Line(segment)) ==> !LooksLikeEnd(Line(segment)) && '\r' !in TrimEndBreaks(Line(segment))
  }

  function RestoredSegment(segment: string): string {
    if IsHerdLine(Line(segment)) then RestoredLine(segment) else segment
  }

  function RestoredSegments(segments: seq<string>): seq<string> {
    if segments == [] then [] else [RestoredSegment(segments[0])] + RestoredSegments(segments[1..])
  }

  lemma FreeRestored(p: string, g: string)
    requires Free(p, HERD_BLOCK_START) && Free(g, HERD_BLOCK_START) && AtLineStart(p) && IsSegment(g)
    ensures Free(p + RestoredLine(g), HERD_BLOCK_START)
    ensures Terminated(g) ==> AtLineStart(p + RestoredLine(g))
  {
    StartShape();
    RestoredLineFree(g, HERD_BLOCK_START);
    FreeExtend(p, RestoredLine(g), HERD_BLOCK_START);
  }

  /** The first of the marked segments comes back, or restoring fails. */
  lemma HeadRestored(p: string, g: string, tail: string)
    requires Free(p, HERD_BLOCK_START) && AtLineStart(p) && IsSegment(g) && (Terminated(g) || tail == "")
    requires Free(g, HERD_BLOCK_START) && Free(g, HERD_BLOCK_END)
    ensures var r, q := Restored(p + MarkedSegment(g) + tail), p + RestoredSegment(g);
      && (if Restorable(g) then r == Restored(q + tail) else r.Err?)
      && Free(q, HERD_BLOCK_START) && (Terminated(g) ==> AtLineStart(q))
  {
    hide RestoreBlock, RestoredLine, LooksLikeEnd;
    if IsHerdLine(Line(g)) {
      OnceMarked(p, g, tail);
      FreeRestored(p, g);
    } else {
      FreeNext(p, g);
    }
    hide IsHerdLine, Line;
  }

  lemma ConcatFirst(g: string, rest: seq<string>)
    ensures Concat([g] + rest) == g + Concat(rest)
  {
  }

  lemma AreSegmentsRest(segments: seq<string>)
    requires AreSegments(segments) && segments != []
    ensures IsSegment(segments[0]) && AreSegments(segments[1..]) && (Terminated(segments[0]) || segments[1..] == [])
  {
  }

  /** What restoring makes of marked segments: every Herd line comes back without its trailing carriage
      returns, or nothing does. */
  lemma {:induction false} RestoreMarkedTo(p: string, segments: seq<string>)
    requires Free(p, HERD_BLOCK_START) && (AtLineStart(p) || segments == []) && AreSegments(segments)
    requires forall s :: s in segments ==> Free(s, HERD_BLOCK_START) && Free(s, HERD_BLOCK_END)
    ensures Restored(p + MarkAll(segments)).Ok? <==> forall s :: s in segments ==> Restorable(s)
    ensures Restored(p + MarkAll(segments)).Ok? ==>
              Restored(p + MarkAll(segments)) == Ok(p + Concat(RestoredSegments(segments)))
    decreases |segments|
  {
    if segments == [] {
      assert p + "" == p;
    } else {
      hide *;
      var g, rest := segments[0], segments[1..];
      var q := p + RestoredSegment(g);
      assert MarkAll(segments) == MarkedSegment(g) + MarkAll(rest) by { MarkAllFirst(segments); }
      assert RestoredSegments(segments) == [RestoredSegment(g)] + RestoredSegments(rest) by { MarkAllFirst(segments); }
      AreSegmentsRest(segments);
      assert segments == [g] + rest && g in segments;
      assert forall s :: s in rest ==> s in segments;
      assert rest == [] ==> MarkAll(rest) == "" by { MarkAllFirst(rest); }
      HeadRestored(p, g, MarkAll(rest));
      ConcatFirst(RestoredSegment(g), RestoredSegments(rest));
      Assoc(p, MarkedSegment(g), MarkAll(rest));
      Assoc(p, RestoredSegment(g), Concat(RestoredSegments(rest)));
      if Restorable(g) {
        RestoreMarkedTo(q, rest);
      }
    }
  }

  lemma MarkAllFirst(segments: seq<string>)
    ensures segments == [] ==> MarkAll(segments) == ""
    ensures segments != [] ==> MarkAll(segments) == MarkedSegment(segments[0]) + MarkAll(segments[1..])
    ensures segments != [] ==>
              RestoredSegments(segments) == [RestoredSegment(segments[0])] + RestoredSegments(segments[1..])
  {
  }

  lemma {:induction false} TrimStartAppend(s: string, c: char)
    requires IsSpace(c)
    ensures TrimStart(s + [c]) == if TrimStart(s) == "" then "" else TrimStart(s) + [c]
  {
    if s == "" {
      assert ("" + [c])[1..] == "";
    } else {
      assert (s + [c])[1..] == s[1..] + [c];
      TrimStartAppend(s[1..], c);
    }
  }

  lemma {:induction false} TrimBreaks(s: string, b: string)
    requires AllBreaks(b)
    ensures Trim(s + b) == Trim(s)
    decreases |b|
  {
    if b == "" {
      assert s + b == s;
    } else {
      var c, d := b[|b| - 1], b[..|b| - 1];
      TrimBreaks(s, d);
      assert c in b && s + b == (s + d) + [c];
      TrimStartAppend(s + d, c);
      var t := TrimStart(s + d);
      assert (t + [c])[..|t|] == t;
    }
  }

  /** The restored line is a Herd line like the marked one, and not empty. */
  lemma RestoredIsHerd(l: string)
    requires IsHerdLine(l)
    ensures IsHerdLine(TrimEndBreaks(l)) && TrimEndBreaks(l) != ""
  {
    var t := TrimEndBreaks(l);
    TrimEndFacts(l);
    TrimBreaks(t, l[|t|..]);
    assert Trim(t) == Trim(l);
    assert !IsHerdLine("") by {
      assert Normalized(Trim("")) == "";
    }
  }

  lemma RestoredShape(g: string)
    requires IsSegment(g) && IsHerdLine(Line(g)) && Restorable(g)
    ensures var r := RestoredLine(g);
      && IsSegment(r) && Line(r) == TrimEndBreaks(Line(g)) && Ending(r) == Ending(g)
      && IsHerdLine(Line(r)) && (Terminated(r) <==> Terminated(g))
  {
    var l := Line(g);
    var t := TrimEndBreaks(l);
    LineShape(g);
    RestoredIsHerd(l);
    hide IsHerdLine;
    assert t + "" == t && (t + "\n")[..|t|] == t;
    assert '\n' !in t && t[|t| - 1] in t;
  }

  /** A line that is marked again as it was marked before. */
  predicate Repeatable(segment: string) {
    IsHerdLine(Line(segment)) ==> !LooksLikeEnd(Line(segment)) && '\r' !in Line(segment)
  }

  lemma RepeatableIff(g: string)
    requires IsSegment(g) && Restorable(g) && IsHerdLine(Line(g))
    ensures Repeatable(g) <==> TrimEndBreaks(Line(g)) == Line(g)
  {
    var l := Line(g);
    LineShape(g);
    if Repeatable(g) {
      assert l != "" ==> l[|l| - 1] in l;
      TrimEndIs(l, "");
      assert l + "" == l;
    }
  }

  lemma {:induction false} RestoredAre(segments: seq<string>)
    requires AreSegments(segments) && forall s :: s in segments ==> Restorable(s)
    ensures AreSegments(RestoredSegments(segments)) && |RestoredSegments(segments)| == |segments|
  {
    hide IsHerdLine, Line, RestoredLine, IsSegment, Terminated, Restorable;
    if segments != [] {
      var g, rest := segments[0], segments[1..];
      assert segments == [g] + rest && g in segments;
      assert forall s :: s in rest ==> s in segments;
      RestoredAre(rest);
      if IsHerdLine(Line(g)) {
        RestoredShape(g);
      }
      var all := RestoredSegments(segments);
      assert all == [RestoredSegment(g)] + RestoredSegments(rest);
    }
  }

  lemma {:induction false} SegmentsOfConcat(segments: seq<string>)
    requires AreSegments(segments)
    ensures Segments(Concat(segments)) == segments
  {
    if segments != [] {
      var rest := segments[1..];
      SegmentsOfConcat(rest);
      SegmentsAppend(segments[0], Concat(rest));
      assert segments == [segments[0]] + rest;
    }
  }

  /** Marking what was restored never gives a longer text, and the same text only if every Herd line
      was free of carriage returns. */
  lemma {:induction false} RemarkedLength(segments: seq<string>)
    requires AreSegments(segments) && forall s :: s in segments ==> Restorable(s)
    ensures var again, once := MarkAll(RestoredSegments(segments)), MarkAll(segments);
      if forall s :: s in segments ==> Repeatable(s) then again == once else |again| < |once|
  {
    hide IsHerdLine, Line, RestoredLine, IsSegment, Terminated, Restorable, Repeatable, MarkedSegment;
    if segments != [] {
      var g, rest := segments[0], segments[1..];
      assert segments == [g] + rest && g in segments;
      assert forall s :: s in rest ==> s in segments;
      RemarkedLength(rest);
      RemarkedSegment(g);
      var all := RestoredSegments(segments);
      assert all[0] == RestoredSegment(g) && all[1..] == RestoredSegments(rest);
    }
  }

  lemma RemarkedSegment(g: string)
    requires IsSegment(g) && Restorable(g)
    ensures var again, once := MarkedSegment(RestoredSegment(g)), MarkedSegment(g);
      if Repeatable(g) then again == once else |again| < |once|
  {
    if IsHerdLine(Line(g)) {
      RestoredShape(g);
      RepeatableIff(g);
      TrimEndFacts(Line(g));
    }
    hide IsHerdLine, Line;
  }

  /** What marking and restoring come to for every profile without markers: an error if some Herd line
      cannot be told from the end of its block or holds a carriage return in its middle, otherwise the
      profile with the trailing carriage returns of its Herd lines gone. */
  lemma RestoredMarked(x: string)
    requires MarkerFree(x)
    ensures Marked(x) == Ok(MarkAll(Segments(x)))
    ensures Restored(MarkAll(Segments(x))).Ok? <==> forall s :: s in Segments(x) ==> Restorable(s)
    ensures Restored(MarkAll(Segments(x))).Ok? ==>
              Restored(MarkAll(Segments(x))) == Ok(Concat(RestoredSegments(Segments(x))))
  {
    hide RestoreBlock, IsHerdLine;
    SegmentsOf(x);
    SegmentFree(Segments(x), HERD_BLOCK_START);
    SegmentFree(Segments(x), HERD_BLOCK_END);
    assert Free("", HERD_BLOCK_START) by {
      forall i
        ensures !At("", HERD_BLOCK_START, i)
      {
      }
    }
    RestoreMarkedTo("", Segments(x));
    assert "" + MarkAll(Segments(x)) == MarkAll(Segments(x));
    assert "" + Concat(RestoredSegments(Segments(x))) == Concat(RestoredSegments(Segments(x)));
  }

  lemma LineLength(g: string)
    requires IsSegment(g)
    ensures |Line(g)| + |Ending(g)| <= |g|
    ensures |Line(g)| + |Ending(g)| == |g| ==> g == Line(g) + Ending(g)
    ensures '\r' !in Ending(g)
  {
    if Terminated(g) {
      assert g == g[..|g| - 1] + "\n";
    }
  }

  lemma RestoredSegmentLength(g: string)
    requires IsSegment(g) && Restorable(g)
    ensures if Recoverable(g) then RestoredSegment(g) == g else |RestoredSegment(g)| < |g|
  {
    hide IsHerdLine, Line, Ending, TrimEndBreaks, LooksLikeEnd, IsSegment;
    var l, e := Line(g), Ending(g);
    LineShape(g);
    LineLength(g);
    TrimEndFacts(l);
    assert '\r' in l + e ==> '\r' in l;
  }

  lemma {:induction false} RestoredLength(segments: seq<string>)
    requires forall s :: s in segments ==> IsSegment(s) && Restorable(s)
    ensures var back := Concat(RestoredSegments(segments));
      if forall s :: s in segments ==> Recoverable(s) then back == Concat(segments) else |back| < |Concat(segments)|
  {
    hide IsHerdLine, Line, RestoredLine, RestoredSegment, IsSegment, Restorable, Recoverable;
    if segments != [] {
      var g, rest := segments[0], segments[1..];
      assert segments == [g] + rest && g in segments;
      assert forall s :: s in rest ==> s in segments;
      RestoredSegmentLength(g);
      RestoredLength(rest);
      var all := RestoredSegments(segments);
      assert all[0] == RestoredSegment(g) && all[1..] == RestoredSegments(rest);
    }
  }

  lemma RecoverableIsRestorable(segments: seq<string>)
    requires AreSegments(segments)
    ensures forall s :: s in segments && Recoverable(s) ==> Restorable(s)
  {
    forall s | s in segments && Recoverable(s)
      ensures Restorable(s)
    {
      LineShape(s);
    }
  }

  /** For a profile without markers: marking always succeeds, and restoring undoes it exactly when no
      Herd line holds a carriage return or starts like an end marker. */
  lemma MarkThenRestore(x: string)
    requires MarkerFree(x)
    ensures Marked(x).Ok?
    ensures Restored(Marked(x).value) == Ok(x) <==> forall s :: s in Segments(x) ==> Recoverable(s)
  {
    var segments := Segments(x);
    SegmentsOf(x);
    RestoredMarked(x);
    RecoverableIsRestorable(segments);
    hide IsHerdLine, Line, Restorable, Recoverable, Restored, RestoredSegment, MarkedSegment, Segments;
    if forall s :: s in segments ==> Restorable(s) {
      RestoredLength(segments);
    }
  }

  /** Marking twice is marking once, exactly when no Herd line starts like an end marker or holds a
      carriage return before its line end. */
  lemma MarkIdempotent(x: string)
    requires MarkerFree(x)
    ensures Marked(x).Ok?
    ensures Marked(Marked(x).value) == Marked(x) <==> forall s :: s in Segments(x) ==> Repeatable(s)
  {
    var segments := Segments(x);
    SegmentsOf(x);
    RestoredMarked(x);
    RepeatableIsRestorable(segments);
    hide IsHerdLine, Line, Restorable, Repeatable, Restored, RestoredSegment, MarkedSegment, Segments;
    if forall s :: s in segments ==> Restorable(s) {
      RestoredAre(segments);
      SegmentsOfConcat(RestoredSegments(segments));
      RemarkedLength(segments);
    }
  }

  lemma RepeatableIsRestorable(segments: seq<string>)
    requires AreSegments(segments)
    ensures forall s :: s in segments && Repeatable(s) ==> Restorable(s)
  {
    forall s | s in segments && Repeatable(s)
      ensures Restorable(s)
    {
      TrimEndFacts(Line(s));
    }
  }

  function Lookalike(): string {
    HERD_BLOCK_END[2..] + " herd/bin"
  }

  lemma AtPath(n: string, i: nat)
    requires i + 4 <= |n| && n[i] == 'p' && n[i + 1] == 'a' && n[i + 2] == 't' && n[i + 3] == 'h'
    ensures At(n, "path", i)
  {
    assert n[i..i + 4] == "path";
  }

  lemma NormalizedAt(s: string, m: string, i: nat)
    requires i + |m| <= |s| && forall k :: 0 <= k < |m| ==> Normalized(s)[i + k] == m[k]
    ensures At(Normalized(s), m, i)
  {
    assert Normalized(s)[i..i + |m|] == m;
  }

  lemma TrimmedAlready(s: string)
    requires s != "" && !IsSpace(s[0]) && !IsSpace(s[|s| - 1])
    ensures Trim(s) == s
  {
  }

  lemma LookalikeIsHerd()
    ensures IsHerdLine(Lookalike())
  {
    hide IsHerdLine, Normalized;
    EndLetters();
    var e := HERD_BLOCK_END;
    var x := Lookalike();
    assert |x| == 46 && x[0] == e[2] && x[29] == e[31] && x[30] == e[32] && x[31] == e[33] && x[32] == e[34];
    LookalikeParts(x);
  }

  lemma EndLetters()
    ensures var e := HERD_BLOCK_END;
      |e| == 39 && e[2] == '<' && e[31] == 'P' && e[32] == 'A' && e[33] == 'T' && e[34] == 'H'
  {
  }

  lemma LookalikeParts(x: string)
    requires |x| == 46 && x[0] == '<' && x[29] == 'P' && x[30] == 'A' && x[31] == 'T' && x[32] == 'H'
    requires x[37..] == " herd/bin"
    ensures IsHerdLine(x)
  {
    TrimmedAlready(x) by {
      assert x[45] == x[37..][8];
    }
    AtPath(Normalized(x), 29);
    forall k | 0 <= k < 8
      ensures Normalized(x)[38 + k] == "herd/bin"[k]
    {
      assert x[38 + k] == x[37..][1 + k] == " herd/bin"[1 + k];
    }
    NormalizedAt(x, "herd/bin", 38);
  }

  lemma LookalikeShape()
    ensures var x := Lookalike(); IsSegment(x) && !Terminated(x) && '#' !in x && '\r' !in x && LooksLikeEnd(x)
  {
    EndShape();
    var e := HERD_BLOCK_END;
    forall c | c in e[2..]
      ensures c != '#' && c != '\r' && c != '\n'
    {
      var k :| 0 <= k < |e[2..]| && e[2..][k] == c;
      assert e[k + 2] == c;
    }
  }

  /** Line feeds only and no markers are not enough: this one-line profile is not restored. */
  lemma LookalikeNotRestored()
    ensures var x := Lookalike();
      MarkerFree(x) && '\r' !in x && Marked(x).Ok? && Restored(Marked(x).value) != Ok(x)
  {
    hide RestoreBlock, IsHerdLine, Segments, Lookalike;
    var x := Lookalike();
    LookalikeShape();
    LookalikeIsHerd();
    StartShape();
    EndShape();
    forall m, i | m in {HERD_BLOCK_START, HERD_BLOCK_END}
      ensures !At(x, m, i)
    {
      if At(x, m, i) {
        AtChar(x, m, i, 0);
      }
    }
    SegmentsAppend(x, "");
    assert x + "" == x && Line(x) == x;
    assert x in Segments(x);
    assert !Recoverable(x);
    MarkThenRestore(x);
  }

  // ---------------------------------------------------------------------------------------------
  // After marking no Herd line is active
  // ---------------------------------------------------------------------------------------------

  lemma {:induction false} TrimEndHash(s: string)
    requires s != "" && s[0] == '#'
    ensures "#" <= TrimEnd(s)
  {
    if IsSpace(s[|s| - 1]) {
      TrimEndHash(s[..|s| - 1]);
    }
  }

  lemma CommentInactive(line: string)
    requires line != "" && line[0] == '#'
    ensures !IsHerdLine(line)
  {
    TrimEndHash(line);
  }

  lemma CommentSegment(segment: string)
    requires IsSegment(segment) && segment[0] == '#' && |segment| > 2
    ensures !IsHerdLine(Line(segment))
  {
    CommentInactive(Line(segment));
  }

  ghost predicate AllInactive(segments: seq<string>) {
    forall s :: s in segments ==> !IsHerdLine(Line(s))
  }

  lemma BlockLines(s: string, e: string, line: string, tail: string)
    ensures BlockOf(s, e, line, "\n") + tail == (s + "\n") + (("# " + line + "\n") + ((e + "\n") + tail))
  {
    var hashed := "# " + line;
    Assoc(s + "\n", "# ", line);
    Assoc(s + "\n", hashed, "\n");
    Assoc(s + "\n" + (hashed + "\n"), e, "\n");
    Assoc(s + "\n" + (hashed + "\n"), e + "\n", tail);
    Assoc(s + "\n", hashed + "\n", (e + "\n") + tail);
  }

  lemma CommentFirst(segment: string, tail: string)
    requires IsSegment(segment) && segment[0] == '#' && |segment| > 2 && (Terminated(segment) || tail == "")
    requires AllInactive(Segments(tail))
    ensures AllInactive(Segments(segment + tail))
  {
    hide Segments, IsHerdLine;
    SegmentsAppend(segment, tail);
    CommentSegment(segment);
  }

  lemma BlockInactive(s: string, e: string, line: string, ending: string, tail: string)
    requires IsLineMarker(s) && IsLineMarker(e) && '\n' !in line && (ending == "\n" || (ending == "" && tail == ""))
    requires AllInactive(Segments(tail))
    ensures AllInactive(Segments(BlockOf(s, e, line, ending) + tail))
  {
    hide Segments, AllInactive;
    if ending == "" {
      var one := s + "# " + line + e;
      assert one[0] == s[0];
      assert BlockOf(s, e, line, ending) == one;
      assert IsSegment(one) by {
        assert forall i :: 0 <= i < |line| ==> line[i] != '\n';
      }
      CommentFirst(one, tail);
    } else {
      BlockLines(s, e, line, tail);
      assert forall i :: 0 <= i < |line| ==> line[i] != '\n';
      CommentFirst(e + "\n", tail);
      CommentFirst("# " + line + "\n", (e + "\n") + tail);
      CommentFirst(s + "\n", ("# " + line + "\n") + ((e + "\n") + tail));
    }
  }

  lemma MarkedSegmentInactive(segment: string, tail: string)
    requires IsSegment(segment) && (Terminated(segment) || tail == "") && AllInactive(Segments(tail))
    ensures AllInactive(Segments(MarkedSegment(segment) + tail))
  {
    hide Segments, IsHerdLine;
    if IsHerdLine(Line(segment)) {
      StartShape();
      EndShape();
      LineShape(segment);
      BlockInactive(HERD_BLOCK_START, HERD_BLOCK_END, Line(segment), Ending(segment), tail);
    } else {
      SegmentsAppend(segment, tail);
    }
  }

  lemma {:induction false} MarkAllInactive(segments: seq<string>)
    requires AreSegments(segments)
    ensures AllInactive(Segments(MarkAll(segments)))
  {
    if segments != [] {
      hide IsHerdLine;
      var rest := segments[1..];
      assert Terminated(segments[0]) || rest == [];
      MarkAllInactive(rest);
      MarkedSegmentInactive(segments[0], MarkAll(rest));
    }
  }

  /** Whatever the profile looked like, a successful marking leaves no active Herd line. */
  lemma MarkedIsInactive(x: string)
    requires Marked(x).Ok?
    ensures !HasActiveHerdPath(Marked(x).value)
  {
    hide RestoreBlock, IsHerdLine;
    SegmentsOf(Restored(x).value);
    MarkAllInactive(Segments(Restored(x).value));
  }

  // ---------------------------------------------------------------------------------------------
  // Which lines are Herd's
  // ---------------------------------------------------------------------------------------------

  /** "path", letters in either case. */
  predicate PathStands(s: string, p: int) {
    && 0 <= p && p + 4 <= |s|
    && s[p] in "pP" && s[p + 1] in "aA" && s[p + 2] in "tT" && s[p + 3] in "hH"
  }

  /** "herd", a slash or back slash, "bin", letters in either case. */
  predicate HerdBinStands(s: string, p: int) {
    && 0 <= p && p + 8 <= |s|
    && s[p] in "hH" && s[p + 1] in "eE" && s[p + 2] in "rR" && s[p + 3] in "dD" && s[p + 4] in "/\\"
    && s[p + 5] in "bB" && s[p + 6] in "iI" && s[p + 7] in "nN"
  }

  lemma NormalizedPath(s: string, p: int)
    ensures At(Normalized(s), "path", p) <==> PathStands(s, p)
  {
    var m := "path";
    if 0 <= p && p + 4 <= |s| {
      var t := Normalized(s)[p..p + 4];
      assert forall k :: 0 <= k < 4 ==> t[k] == Normalized(s)[p + k];
      assert t == m <==> t[0] == m[0] && t[1] == m[1] && t[2] == m[2] && t[3] == m[3];
    }
  }

  lemma NormalizedHerdBin(s: string, p: int)
    ensures At(Normalized(s), "herd/bin", p) <==> HerdBinStands(s, p)
  {
    var m := "herd/bin";
    if 0 <= p && p + 8 <= |s| {
      var t := Normalized(s)[p..p + 8];
      assert forall k :: 0 <= k < 8 ==> t[k] == Normalized(s)[p + k];
      assert t == m <==> t[0] == m[0] && t[1] == m[1] && t[2] == m[2] && t[3] == m[3] && t[4] == m[4] &&
                         t[5] == m[5] && t[6] == m[6] && t[7] == m[7];
    }
  }

  /** Words without white space are found in a text exactly if in what trimming leaves. */
  lemma StandsTrimmed(s: string, i: nat, j: nat)
    requires i <= j <= |s| && AllSpace(s[..i]) && AllSpace(s[j..])
    ensures (exists p :: PathStands(s, p)) <==> (exists p :: PathStands(s[i..j], p))
    ensures (exists p :: HerdBinStands(s, p)) <==> (exists p :: HerdBinStands(s[i..j], p))
  {
    assert forall k :: 0 <= k < i ==> s[..i][k] == s[k];
    assert forall k :: j <= k < |s| ==> s[j..][k - j] == s[k];
    if p :| PathStands(s, p) {
      assert !IsSpace(s[p]) && !IsSpace(s[p + 3]);
      assert PathStands(s[i..j], p - i);
    }
    if p :| PathStands(s[i..j], p) {
      assert PathStands(s, p + i);
    }
    if p :| HerdBinStands(s, p) {
      assert !IsSpace(s[p]) && !IsSpace(s[p + 7]);
      assert HerdBinStands(s[i..j], p - i);
    }
    if p :| HerdBinStands(s[i..j], p) {
      assert HerdBinStands(s, p + i);
    }
  }

  lemma HasWords(s: string)
    ensures Contains(Normalized(s), "path") <==> exists p :: PathStands(s, p)
    ensures Contains(Normalized(s), "herd/bin") <==> exists p :: HerdBinStands(s, p)
  {
    forall p: int
      ensures At(Normalized(s), "path", p) <==> PathStands(s, p)
      ensures At(Normalized(s), "herd/bin", p) <==> HerdBinStands(s, p)
    {
      NormalizedPath(s, p);
      NormalizedHerdBin(s, p);
    }
    hide Normalized, PathStands, HerdBinStands, At;
  }

  /** A line is Herd's exactly if both words stand anywhere in it and it is no comment. */
  lemma HerdLineIs(line: string, i: nat)
    requires i <= |line| && AllSpace(line[..i]) && (i < |line| ==> !IsSpace(line[i]))
    ensures IsHerdLine(line) <==>
      && !(i < |line| && line[i] == '#')
      && (exists p :: PathStands(line, p)) && (exists p :: HerdBinStands(line, p))
  {
    hide Normalized, PathStands, HerdBinStands, Trim, Contains;
    var first, last := TrimParts(line);
    FirstInText(line, i, first, last);
    StandsTrimmed(line, first, last);
    HasWords(line[first..last]);
    assert "#" <= line[first..last] <==> first < last && line[first] == '#';
    hide AllSpace;
  }

  lemma FirstInText(s: string, i: nat, first: nat, last: nat)
    requires i <= |s| && AllSpace(s[..i]) && (i < |s| ==> !IsSpace(s[i]))
    requires first <= last <= |s| && AllSpace(s[..first]) && AllSpace(s[last..])
    requires first < last ==> !IsSpace(s[first])
    ensures if first < last then i == first else i == |s|
  {
    assert forall k :: 0 <= k < i ==> s[..i][k] == s[k];
    assert forall k :: 0 <= k < first ==> s[..first][k] == s[k];
    assert forall k :: last <= k < |s| ==> s[last..][k - last] == s[k];
  }
}
