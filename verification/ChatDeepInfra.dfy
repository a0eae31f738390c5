/**
 * The two paths on which the DeepInfra chat model takes `<think>` blocks out of its output:
 * `_extract_inline_think` on a whole message, and the router on a stream of chunks.
 */
module ChatDeepInfra {
  import opened Text
  import opened ThinkTags
  import opened Wrappers

  // ---------- The regular expression ^\s*<think>(.*?)</think>\s* ----------

  /** One way to match: the open tag at `start`, the close tag at `close`, the match ends at `end`. */
  datatype Block = Block(start: nat, close: nat, end: nat)

  predicate Matches(text: string, b: Block) {
    && b.start + |OPEN_TAG| <= b.close && b.close + |CLOSE_TAG| <= b.end <= |text|
    && AllSpace(text[..b.start])
    && OccursAt(text, OPEN_TAG, b.start)
    && OccursAt(text, CLOSE_TAG, b.close)
    && AllSpace(text[b.close + |CLOSE_TAG|..b.end])
  }

  /** The match the engine reports: `\s*` takes all it can, `.*?` as little as it can. */
  ghost predicate IsReported(text: string, b: Block) {
    && Matches(text, b)
    && forall other | Matches(text, other) ::
         other.start == b.start && b.close <= other.close && (other.close == b.close ==> other.end <= b.end)
  }

  /** There is no whitespace in a tag, so the open tag can only start where the whitespace ends. */
  lemma BlockStart(text: string, b: Block)
    requires Matches(text, b)
    ensures b.start == LeadingSpaces(text) && LStrip(text) == text[b.start..] && OPEN_TAG <= LStrip(text)
  {
    assert text == text[..b.start] + text[b.start..];
    assert text[b.start..][0] == text[b.start..b.start + |OPEN_TAG|][0];
    LStripUnique(text[..b.start], text[b.start..]);
    assert text[b.start..][..|OPEN_TAG|] == text[b.start..b.start + |OPEN_TAG|];
  }

  /** The text behind the open tag. */
  function Body(text: string): string
    requires OPEN_TAG <= LStrip(text)
  {
    LStrip(text)[|OPEN_TAG|..]
  }

  function BodyStart(text: string): nat {
    LeadingSpaces(text) + |OPEN_TAG|
  }

  /** The block whose close tag is at index `i` of the body and which takes all whitespace after it. */
  function BlockAt(text: string, i: nat): Block
    requires OPEN_TAG <= LStrip(text) && i + |CLOSE_TAG| <= |Body(text)|
  {
    Block(LeadingSpaces(text), BodyStart(text) + i,
          BodyStart(text) + i + |CLOSE_TAG| + LeadingSpaces(Body(text)[i + |CLOSE_TAG|..]))
  }

  lemma BlockParts(text: string, b: Block)
    requires Matches(text, b)
    ensures OPEN_TAG <= LStrip(text) && b.start == LeadingSpaces(text)
    ensures b.close >= BodyStart(text)
    ensures var i := b.close - BodyStart(text);
      OccursAt(Body(text), CLOSE_TAG, i) && b.end <= BlockAt(text, i).end
  {
    BlockStart(text, b);
    var i := b.close - BodyStart(text);
    BodyOccurrence(text, BodyStart(text), i);
    assert Body(text)[i + |CLOSE_TAG|..] == text[b.close + |CLOSE_TAG|..];
    GreedyTail(text[b.close + |CLOSE_TAG|..], text[b.close + |CLOSE_TAG|..b.end]);
  }

  lemma BlockAtMatches(text: string, i: nat)
    requires OPEN_TAG <= LStrip(text) && OccursAt(Body(text), CLOSE_TAG, i)
    ensures Matches(text, BlockAt(text, i))
  {
    BodyOccurrence(text, BodyStart(text), i);
    SpaceAfter(text, BodyStart(text) + i + |CLOSE_TAG|);
    OpensAt(text, LeadingSpaces(text));
  }

  lemma SpaceAfter(text: string, from: nat)
    requires from <= |text|
    ensures AllSpace(text[from..from + LeadingSpaces(text[from..])])
  {
    var tail := text[from..];
    assert text[from..from + LeadingSpaces(tail)] == tail[..LeadingSpaces(tail)];
  }

  lemma OpensAt(text: string, from: nat)
    requires from <= |text| && OPEN_TAG <= text[from..]
    ensures OccursAt(text, OPEN_TAG, from)
  {
    assert text[from..from + |OPEN_TAG|] == text[from..][..|OPEN_TAG|];
  }

  method MatchThinkBlock(text: string) returns (b: Option<Block>)
    ensures b.Some? ==> IsReported(text, b.value)
    ensures b.None? ==> forall other :: !Matches(text, other)
  {
    b := None;
    if OPEN_TAG <= LStrip(text) {
      var i := FindIndex(Body(text), CLOSE_TAG);
      FindIsFirst(Body(text), CLOSE_TAG);
      if i >= 0 {
        FirstBlockIsReported(text, i);
        return Some(BlockAt(text, i));
      }
    }
    forall other ensures !Matches(text, other) {
      if Matches(text, other) {
        BlockParts(text, other);
      }
    }
  }

  lemma BodyOccurrence(text: string, from: nat, i: nat)
    requires from <= |text|
    ensures OccursAt(text[from..], CLOSE_TAG, i) == OccursAt(text, CLOSE_TAG, from + i)
  {
    if from + i + |CLOSE_TAG| <= |text| {
      assert text[from..][i..i + |CLOSE_TAG|] == text[from + i..from + i + |CLOSE_TAG|];
    }
  }

  lemma GreedyTail(tail: string, space: string)
    requires space <= tail && AllSpace(space)
    ensures |space| <= LeadingSpaces(tail)
  {
    LStripAppend(space, tail[|space|..]);
    assert tail == space + tail[|space|..];
    assert space + "" == space;
    LStripUnique(space, "");
  }

  // ---------- Extraction from a whole message ----------

  /** What a message's text is divided into, read off the regular expression. */
  ghost function Extracted(text: string): Routed {
    if !(OPEN_TAG <= LStrip(text)) then Routed("", text)
    else if b :| IsReported(text, b) then Routed(text[b.start + |OPEN_TAG|..b.close], text[b.end..])
    else Routed(Body(text), "")
  }

  class AIMessage {
    var content: string
    /** `additional_kwargs["reasoning_content"]`; absent and empty are treated alike. */
    var reasoningContent: string

    constructor (content: string, reasoningContent: string)
      ensures this.content == content && this.reasoningContent == reasoningContent
    {
      this.content, this.reasoningContent := content, reasoningContent;
    }

    method AppendReasoning(reasoning: string)
      modifies this`reasoningContent
      ensures reasoningContent == old(reasoningContent) + reasoning
    {
      if reasoning == "" {
        return;
      }
      reasoningContent := reasoningContent + reasoning;
    }

    method ExtractInlineThink()
      modifies this
      ensures content == Extracted(old(content)).content
      ensures reasoningContent == old(reasoningContent) + Extracted(old(content)).reasoning
    {
      var stripped := LStrip(content);
      if !(OPEN_TAG <= stripped) {
        return;
      }
      var m := MatchThinkBlock(content);
      var reasoning, answer;
      if m.Some? {
        OneReport(content, m.value);
        reasoning := content[m.value.start + |OPEN_TAG|..m.value.close];
        answer := content[m.value.end..];
      } else {
        reasoning := stripped[|OPEN_TAG|..];
        answer := "";
      }
      AppendReasoning(reasoning);
      content := answer;
    }
  }

  lemma OneReport(text: string, b: Block)
    requires IsReported(text, b)
    ensures OPEN_TAG <= LStrip(text)
    ensures Extracted(text) == Routed(text[b.start + |OPEN_TAG|..b.close], text[b.end..])
  {
    BlockStart(text, b);
    forall other | IsReported(text, other) ensures other == b {
      assert Matches(text, other) && Matches(text, b);
    }
  }

  /** The extraction in terms of the first close tag. */
  lemma ExtractedFound(text: string)
    requires OPEN_TAG <= LStrip(text) && Find(Body(text), CLOSE_TAG) >= 0
    ensures var i := Find(Body(text), CLOSE_TAG);
      Extracted(text) == Routed(Body(text)[..i], LStrip(Body(text)[i + |CLOSE_TAG|..]))
  {
    FindIsFirst(Body(text), CLOSE_TAG);
    FirstBlockIsReported(text, Find(Body(text), CLOSE_TAG));
    OneReport(text, BlockAt(text, Find(Body(text), CLOSE_TAG)));
    BlockAtDivides(text, Find(Body(text), CLOSE_TAG));
  }

  lemma FirstBlockIsReported(text: string, i: nat)
    requires OPEN_TAG <= LStrip(text) && OccursAt(Body(text), CLOSE_TAG, i)
    requires forall j: nat | OccursAt(Body(text), CLOSE_TAG, j) :: i <= j
    ensures IsReported(text, BlockAt(text, i))
  {
    var b := BlockAt(text, i);
    BlockAtMatches(text, i);
    forall other | Matches(text, other)
      ensures other.start == b.start && b.close <= other.close && (other.close == b.close ==> other.end <= b.end)
    {
      BlockParts(text, other);
    }
  }

  lemma BlockAtDivides(text: string, i: nat)
    requires OPEN_TAG <= LStrip(text) && i + |CLOSE_TAG| <= |Body(text)|
    ensures var b := BlockAt(text, i);
      && text[b.start + |OPEN_TAG|..b.close] == Body(text)[..i]
      && text[b.end..] == LStrip(Body(text)[i + |CLOSE_TAG|..])
  {
  }

  lemma ExtractedUnterminated(text: string)
    requires OPEN_TAG <= LStrip(text) && Find(Body(text), CLOSE_TAG) == -1
    ensures Extracted(text) == Routed(Body(text), "")
  {
    FindIsFirst(Body(text), CLOSE_TAG);
    forall b ensures !Matches(text, b) {
      if Matches(text, b) {
        BlockParts(text, b);
      }
    }
  }

  lemma NothingMore(r: Routed)
    ensures r.Then(Routed("", "")) == r && Routed("", "").Then(r) == r
  {
    assert r.reasoning + "" == r.reasoning && r.content + "" == r.content;
    assert "" + r.reasoning == r.reasoning && "" + r.content == r.content;
  }

  lemma OpenInTwoParts(body: string, cut: nat)
    requires cut <= |body|
    ensures var p := Open(body, cut); p.emitted.Then(Released(p.state)) == Routed(body, "")
  {
    assert body[..cut] + body[cut..] == body;
  }

  /**
   * Streaming agrees with the non-streaming extraction: what the router has emitted for a text,
   * with what it releases at the end of the stream, is what the whole message is divided into.
   */
  lemma RouterAgreesWithExtraction(text: string)
    ensures After(text).emitted.Then(Released(After(text).state)) == Extracted(text)
  {
    if OPEN_TAG <= LStrip(text) {
      if Find(Body(text), CLOSE_TAG) >= 0 {
        ExtractedFound(text);
        NothingMore(After(text).emitted);
      } else {
        ExtractedUnterminated(text);
        OpenInTwoParts(Body(text), |Body(text)| - HoldbackLen(Body(text), CLOSE_TAG));
      }
    } else {
      NothingMore(After(text).emitted);
    }
  }

  // ---------- Nothing is lost, nothing is invented ----------

  /** `text` is whitespace, an open tag, `r.reasoning`, a close tag, whitespace and `r.content`. */
  ghost predicate IsClosedBlock(text: string, space: string, gap: string, r: Routed) {
    && AllSpace(space) && AllSpace(gap) && !StartsWithSpace(r.content)
    && !Contains(r.reasoning, CLOSE_TAG)
    && text == space + (OPEN_TAG + (r.reasoning + (CLOSE_TAG + (gap + r.content))))
  }

  /** `text` is whitespace, an open tag and `r.reasoning`, and the close tag is missing. */
  ghost predicate IsOpenBlock(text: string, space: string, r: Routed) {
    && AllSpace(space) && r.content == ""
    && !Contains(r.reasoning, CLOSE_TAG)
    && text == space + (OPEN_TAG + r.reasoning)
  }

  /** `text` does not start with an open tag. */
  ghost predicate IsPlain(text: string, r: Routed) {
    !(OPEN_TAG <= LStrip(text)) && r == Routed("", text)
  }

  /** Every text takes one of the three shapes, with the two extracted parts at their places. */
  lemma ExtractionLosesNothing(text: string)
    ensures var r := Extracted(text);
      || IsPlain(text, r)
      || (exists space :: IsOpenBlock(text, space, r))
      || (exists space, gap :: IsClosedBlock(text, space, gap, r))
  {
    if OPEN_TAG <= LStrip(text) {
      var space, body := text[..LeadingSpaces(text)], Body(text);
      assert text == space + (OPEN_TAG + body);
      FindIsFirst(body, CLOSE_TAG);
      if Find(body, CLOSE_TAG) >= 0 {
        var gap := ClosedParts(text, space, body);
      } else {
        ExtractedUnterminated(text);
        assert IsOpenBlock(text, space, Extracted(text));
      }
    }
  }

  lemma ClosedParts(text: string, space: string, body: string) returns (gap: string)
    requires OPEN_TAG <= LStrip(text) && body == Body(text) && Find(body, CLOSE_TAG) >= 0
    requires AllSpace(space) && text == space + (OPEN_TAG + body)
    ensures IsClosedBlock(text, space, gap, Extracted(text))
  {
    FindIsFirst(body, CLOSE_TAG);
    ExtractedFound(text);
    gap := BodyParts(body, Find(body, CLOSE_TAG));
  }

  lemma BodyParts(body: string, i: nat) returns (gap: string)
    requires OccursAt(body, CLOSE_TAG, i) && forall j: nat | OccursAt(body, CLOSE_TAG, j) :: i <= j
    ensures var r := Routed(body[..i], LStrip(body[i + |CLOSE_TAG|..]));
      && AllSpace(gap) && !StartsWithSpace(r.content)
      && !Contains(r.reasoning, CLOSE_TAG)
      && body == r.reasoning + (CLOSE_TAG + (gap + r.content))
  {
    NoTagBefore(body, i);
    gap := GapBefore(body[i + |CLOSE_TAG|..]);
    InThreeParts(body, i, |CLOSE_TAG|);
  }

  /** A text is its leading whitespace and its stripped form. */
  lemma GapBefore(tail: string) returns (gap: string)
    ensures AllSpace(gap) && !StartsWithSpace(LStrip(tail)) && tail == gap + LStrip(tail)
  {
    gap := tail[..LeadingSpaces(tail)];
  }

  lemma InThreeParts(body: string, i: nat, n: nat)
    requires i + n <= |body|
    ensures body == body[..i] + (body[i..i + n] + body[i + n..])
  {
  }

  lemma NoTagBefore(body: string, i: nat)
    requires i <= |body| && forall j: nat | OccursAt(body, CLOSE_TAG, j) :: i <= j
    ensures !Contains(body[..i], CLOSE_TAG)
  {
    assert body == body[..i] + body[i..];
    forall j: nat | j <= i ensures !OccursAt(body[..i], CLOSE_TAG, j) {
      if j + |CLOSE_TAG| <= i {
        OccurrenceInPrefix(body[..i], body[i..], CLOSE_TAG, j);
      }
    }
  }

  /** The converse: a text of one of the three shapes is divided into exactly those parts. */
  lemma ExtractionRecoversParts(text: string, r: Routed, space: string, gap: string)
    requires IsPlain(text, r) || IsOpenBlock(text, space, r) || IsClosedBlock(text, space, gap, r)
    ensures Extracted(text) == r
  {
    if IsOpenBlock(text, space, r) {
      OpensWithTag(space, r.reasoning);
      FindIsFirst(r.reasoning, CLOSE_TAG);
      ExtractedUnterminated(text);
    } else if IsClosedBlock(text, space, gap, r) {
      var body := r.reasoning + (CLOSE_TAG + (gap + r.content));
      OpensWithTag(space, body);
      FirstTagInBody(r.reasoning, gap + r.content);
      ExtractedFound(text);
      assert body[..|r.reasoning|] == r.reasoning;
      assert body[|r.reasoning| + |CLOSE_TAG|..] == gap + r.content;
      LStripUnique(gap, r.content);
    }
  }

  /** At texts written out: the tags and the whitespace around them go, the parts stay. */
  lemma ClosedBlockWrittenOut()
    ensures Extracted(" <think>a</think>\n b") == Routed("a", "b")
  {
    var text := " <think>a</think>\n b";
    assert text == " " + (OPEN_TAG + ("a" + (CLOSE_TAG + ("\n " + "b"))));
    assert IsClosedBlock(text, " ", "\n ", Routed("a", "b"));
    ExtractionRecoversParts(text, Routed("a", "b"), " ", "\n ");
  }

  lemma OpenBlockWrittenOut()
    ensures Extracted("<think>a</thin>") == Routed("a</thin>", "")
  {
    var text, body := "<think>a</thin>", "a</thin>";
    assert text == "" + (OPEN_TAG + body);
    forall i | 0 <= i <= |body| ensures !OccursAt(body, CLOSE_TAG, i) {
      if OccursAt(body, CLOSE_TAG, i) {
        OccurrenceCharacter(body, CLOSE_TAG, i, 0);
      }
    }
    assert IsOpenBlock(text, "", Routed(body, ""));
    ExtractionRecoversParts(text, Routed(body, ""), "", "");
  }

  lemma PlainTextWrittenOut()
    ensures Extracted("a <think>b</think>") == Routed("", "a <think>b</think>")
  {
    var text := "a <think>b</think>";
    LStripUnique("", text);
    assert "" + text == text && text[0] != OPEN_TAG[0];
    assert IsPlain(text, Routed("", text));
    ExtractionRecoversParts(text, Routed("", text), "", "");
  }

  lemma OpensWithTag(space: string, body: string)
    requires AllSpace(space)
    ensures var text := space + (OPEN_TAG + body);
      OPEN_TAG <= LStrip(text) && Body(text) == body
  {
    assert OPEN_TAG <= OPEN_TAG + body;
    LStripUnique(space, OPEN_TAG + body);
  }

  lemma OccurrenceCharacter(text: string, pattern: string, i: nat, k: nat)
    requires OccursAt(text, pattern, i) && k < |pattern|
    ensures text[i + k] == pattern[k]
  {
    assert text[i..i + |pattern|][k] == text[i + k];
  }

  /** A close tag cannot overlap another one: its first character does not occur again in it. */
  lemma FirstTagInBody(reasoning: string, rest: string)
    requires !Contains(reasoning, CLOSE_TAG)
    ensures Find(reasoning + (CLOSE_TAG + rest), CLOSE_TAG) == |reasoning|
  {
    var body := reasoning + (CLOSE_TAG + rest);
    FindIsFirst(body, CLOSE_TAG);
    assert body[|reasoning|..|reasoning| + |CLOSE_TAG|] == CLOSE_TAG;
    assert OccursAt(body, CLOSE_TAG, |reasoning|);
    var i := Find(body, CLOSE_TAG);
    if i + |CLOSE_TAG| <= |reasoning| {
      OccurrenceInPrefix(reasoning, CLOSE_TAG + rest, CLOSE_TAG, i);
    } else if i < |reasoning| {
      OccurrenceCharacter(body, CLOSE_TAG, i, |reasoning| - i);
    }
  }

  // ---------- Extraction from a stream ----------

  /** A streamed chunk: its text and its `reasoning_content` (the server's own, on the way in). */
  datatype Chunk = Chunk(content: string, reasoning: string)

  function Concat(parts: seq<string>): string {
    if parts == [] then "" else Concat(parts[..|parts| - 1]) + parts[|parts| - 1]
  }

  lemma ConcatSnoc(parts: seq<string>, last: string)
    ensures Concat(parts + [last]) == Concat(parts) + last
  {
    assert (parts + [last])[..|parts|] == parts;
  }

  function Contents(chunks: seq<Chunk>): seq<string> {
    seq(|chunks|, i requires 0 <= i < |chunks| => chunks[i].content)
  }

  lemma ContentsSnoc(chunks: seq<Chunk>, last: Chunk)
    ensures Concat(Contents(chunks + [last])) == Concat(Contents(chunks)) + last.content
  {
    assert Contents(chunks + [last]) == Contents(chunks) + [last.content];
    ConcatSnoc(Contents(chunks), last.content);
  }

  function Reasonings(chunks: seq<Chunk>): seq<string> {
    seq(|chunks|, i requires 0 <= i < |chunks| => chunks[i].reasoning)
  }

  /** Put `routed` behind the reasoning the server sent with each chunk. */
  ghost predicate AppendedTo(chunks: seq<Chunk>, routed: seq<string>, reasonings: seq<string>) {
    && |chunks| <= |routed| == |reasonings|
    && (forall i | 0 <= i < |chunks| :: reasonings[i] == chunks[i].reasoning + routed[i])
    && (forall i | |chunks| <= i < |routed| :: reasonings[i] == routed[i])
  }

  /** The chunks shown so far carry exactly what the router has emitted for `fed`. */
  ghost predicate InStep(fed: string, out: seq<Chunk>, routed: seq<string>) {
    Routed(Concat(routed), Concat(Contents(out))) == After(fed).emitted
  }

  /**
   * Nothing is shown late or early: after each chunk, what was shown is what the router emits for the
   * text up to it.
   */
  ghost predicate AlwaysInStep(chunks: seq<Chunk>, out: seq<Chunk>, routed: seq<string>) {
    && |chunks| <= |out| && |chunks| <= |routed|
    && forall n | 0 <= n <= |chunks| :: InStep(Concat(Contents(chunks[..n])), out[..n], routed[..n])
  }

  lemma AlwaysInStepSnoc(chunks: seq<Chunk>, n: nat, out: seq<Chunk>, routed: seq<string>, shown: Chunk, part: string)
    requires n < |chunks| && |out| == |routed| == n && AlwaysInStep(chunks[..n], out, routed)
    requires InStep(Concat(Contents(chunks[..n + 1])), out + [shown], routed + [part])
    ensures AlwaysInStep(chunks[..n + 1], out + [shown], routed + [part])
  {
    var more, outMore, routedMore := chunks[..n + 1], out + [shown], routed + [part];
    forall k | 0 <= k <= n + 1 ensures InStep(Concat(Contents(more[..k])), outMore[..k], routedMore[..k]) {
      if k <= n {
        assert more[..k] == chunks[..n][..k] && outMore[..k] == out[..k] && routedMore[..k] == routed[..k];
      } else {
        assert more[..k] == more && outMore[..k] == outMore && routedMore[..k] == routedMore;
      }
    }
  }

  lemma AlwaysInStepThen(chunks: seq<Chunk>, out: seq<Chunk>, routed: seq<string>, last: Chunk, part: string)
    requires |out| == |routed| == |chunks| && AlwaysInStep(chunks, out, routed)
    ensures AlwaysInStep(chunks, out + [last], routed + [part])
  {
    forall n | 0 <= n <= |chunks| ensures InStep(Concat(Contents(chunks[..n])), (out + [last])[..n], (routed + [part])[..n]) {
      assert (out + [last])[..n] == out[..n] && (routed + [part])[..n] == routed[..n];
    }
  }

  /**
   * A whole stream. However the text is cut into chunks, each chunk shows at once what can be shown,
   * the answer is that of the non-streaming path, and so is the reasoning that was routed behind the
   * server's own. There is one more chunk exactly if something is still held back at the end.
   */
  method Stream(chunks: seq<Chunk>) returns (out: seq<Chunk>, ghost routed: seq<string>)
    ensures |chunks| <= |out| <= |chunks| + 1
    ensures Concat(Contents(out)) == Extracted(Concat(Contents(chunks))).content
    ensures AppendedTo(chunks, routed, Reasonings(out))
    ensures Concat(routed) == Extracted(Concat(Contents(chunks))).reasoning
    ensures AlwaysInStep(chunks, out, routed)
    ensures |out| == |chunks| + 1 <==> Released(After(Concat(Contents(chunks))).state) != Routed("", "")
  {
    var router := new ThinkTagStreamRouter();
    out, routed := ConvertChunks(router, chunks);
    ghost var text, state := router.fed, router.State();
    assert state == After(text).state;
    var reasoning, content := router.Flush();
    hide *;
    ghost var last := Chunk(content, reasoning);
    StreamEnds(text, out, routed, last);
    if reasoning != "" || content != "" {
      AppendedToThen(chunks, out, routed, last);
      AlwaysInStepThen(chunks, out, routed, last, reasoning);
      out, routed := out + [Chunk(content, reasoning)], routed + [reasoning];
    }
  }

  /** What was shown and what is released at the end make up the extracted parts. */
  lemma StreamEnds(text: string, out: seq<Chunk>, routed: seq<string>, last: Chunk)
    requires InStep(text, out, routed) && Released(After(text).state) == Routed(last.reasoning, last.content)
    ensures Concat(Contents(out + [last])) == Extracted(text).content
    ensures Concat(routed + [last.reasoning]) == Extracted(text).reasoning
    ensures last == Chunk("", "") ==> Routed(Concat(routed), Concat(Contents(out))) == Extracted(text)
  {
    var shown := Routed(Concat(routed), Concat(Contents(out)));
    assert shown.Then(Routed(last.reasoning, last.content)) == Extracted(text) by {
      RouterAgreesWithExtraction(text);
    }
    hide *;
    ContentsSnoc(out, last);
    ConcatSnoc(routed, last.reasoning);
    NothingMore(shown);
  }

  lemma AppendedToThen(chunks: seq<Chunk>, out: seq<Chunk>, routed: seq<string>, last: Chunk)
    requires |out| == |routed| == |chunks| && AppendedTo(chunks, routed, Reasonings(out))
    ensures AppendedTo(chunks, routed + [last.reasoning], Reasonings(out + [last]))
  {
    assert Reasonings(out + [last]) == Reasonings(out) + [last.reasoning];
  }

  /** Every chunk goes through the router before it is shown. */
  method ConvertChunks(router: ThinkTagStreamRouter, chunks: seq<Chunk>)
    returns (out: seq<Chunk>, ghost routed: seq<string>)
    requires router.Valid() && router.fed == ""
    modifies router
    ensures router.Valid() && router.fed == Concat(Contents(chunks))
    ensures |out| == |routed| == |chunks| && AppendedTo(chunks, routed, Reasonings(out))
    ensures InStep(router.fed, out, routed) && AlwaysInStep(chunks, out, routed)
  {
    out, routed := [], [];
    for n := 0 to |chunks|
      invariant router.Valid() && router.fed == Concat(Contents(chunks[..n]))
      invariant |out| == n
      invariant Paired(chunks, out, routed)
      invariant InStep(router.fed, out, routed) && AlwaysInStep(chunks[..n], out, routed)
    {
      var chunk, part := ConvertChunk(router, chunks[n], out, routed);
      FedSnoc(chunks, n);
      PairedSnoc(chunks, out, routed, chunk, part);
      AlwaysInStepSnoc(chunks, n, out, routed, chunk, part);
      out, routed := out + [chunk], routed + [part];
    }
    assert chunks[..|chunks|] == chunks;
  }

  /** Each chunk shown so far carries the server's reasoning and then the routed one. */
  ghost predicate Paired(chunks: seq<Chunk>, out: seq<Chunk>, routed: seq<string>) {
    |out| == |routed| <= |chunks| && forall i | 0 <= i < |out| :: out[i].reasoning == chunks[i].reasoning + routed[i]
  }

  lemma PairedSnoc(chunks: seq<Chunk>, out: seq<Chunk>, routed: seq<string>, chunk: Chunk, part: string)
    requires Paired(chunks, out, routed) && |out| < |chunks|
    requires chunk.reasoning == chunks[|out|].reasoning + part
    ensures Paired(chunks, out + [chunk], routed + [part])
  {
  }

  lemma FedSnoc(chunks: seq<Chunk>, n: nat)
    requires n < |chunks|
    ensures Concat(Contents(chunks[..n + 1])) == Concat(Contents(chunks[..n])) + chunks[n].content
  {
    assert chunks[..n + 1] == chunks[..n] + [chunks[n]];
    ContentsSnoc(chunks[..n], chunks[n]);
  }

  /** Route one chunk, given what has been shown before. */
  method ConvertChunk(router: ThinkTagStreamRouter, chunk: Chunk, ghost out: seq<Chunk>, ghost routed: seq<string>)
    returns (shown: Chunk, ghost part: string)
    requires router.Valid()
    requires InStep(router.fed, out, routed)
    modifies router
    ensures router.Valid() && router.fed == old(router.fed) + chunk.content
    ensures shown.reasoning == chunk.reasoning + part
    ensures InStep(router.fed, out + [shown], routed + [part])
  {
    var reasoning, content := router.Feed(chunk.content);
    shown, part := Chunk(content, chunk.reasoning + reasoning), reasoning;
    ContentsSnoc(out, shown);
    ConcatSnoc(routed, part);
  }

  /** When the server sends no reasoning of its own, the streamed reasoning is the routed one. */
  lemma StreamWithoutServerReasoning(chunks: seq<Chunk>, routed: seq<string>, reasonings: seq<string>)
    requires forall c | c in chunks :: c.reasoning == ""
    requires AppendedTo(chunks, routed, reasonings)
    ensures Concat(reasonings) == Concat(routed)
  {
    forall i | 0 <= i < |routed| ensures reasonings[i] == routed[i] {
      if i < |chunks| {
        assert chunks[i] in chunks;
        assert "" + routed[i] == routed[i];
      }
    }
    assert reasonings == routed;
  }
}
