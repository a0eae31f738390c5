/**
 * Incremental `<think>…</think>` extraction from a stream of text fragments.
 *
 * `After(s)` says what a router that has been fed the text `s`, cut up in any way, has emitted and
 * still holds. The class is proved to follow it, fragment by fragment; the lemmas say what it means.
 */
module ThinkTags {
  import opened Text

  const OPEN_TAG := "<think>"
  const CLOSE_TAG := "</think>"

  datatype Phase = Detecting | Reasoning | Content

  /** Text divided over the thinking section and the answer. */
  datatype Routed = Routed(reasoning: string, content: string) {
    function Then(next: Routed): Routed {
      Routed(reasoning + next.reasoning, content + next.content)
    }
  }

  /** The router's three fields. */
  datatype RouterState = RouterState(phase: Phase, buffer: string, skipWsAfterClose: bool)

  datatype Progress = Progress(state: RouterState, emitted: Routed)

  // ---------- The longest suffix that is a proper prefix of a tag ----------

  /** The last `k` characters of `text` are a proper prefix of `tag`. */
  predicate IsHoldback(text: string, tag: string, k: nat) {
    k <= |text| && text[|text| - k..] < tag
  }

  predicate IsLongestHoldback(text: string, tag: string, k: nat) {
    IsHoldback(text, tag, k) && forall j | k < j <= |text| :: !IsHoldback(text, tag, j)
  }

  method PartialSuffixLen(text: string, tag: string) returns (k: nat)
    ensures tag != "" ==> IsLongestHoldback(text, tag, k)
    ensures tag == "" ==> k == 0
  {
    k := if |text| <= |tag| - 1 then |text| else if tag == "" then 0 else |tag| - 1;
    while k > 0
      invariant k <= |text|
      invariant tag == "" ==> k == 0
      invariant tag != "" ==> k < |tag| && forall j | k < j <= |text| :: !IsHoldback(text, tag, j)
    {
      if text[|text| - k..] == tag[..k] {
        return;
      }
      k := k - 1;
    }
  }

  /** Whether a suffix is held back does not depend on what precedes it. */
  lemma HoldbackIsLocal(before: string, text: string, tag: string, k: nat)
    requires k <= |text|
    ensures IsHoldback(before + text, tag, k) == IsHoldback(text, tag, k)
  {
    assert (before + text)[|before + text| - k..] == text[|text| - k..];
  }

  lemma {:induction false} LongestHoldbackExists(text: string, tag: string)
    requires tag != ""
    ensures exists k: nat :: IsLongestHoldback(text, tag, k)
  {
    if text < tag {
      assert IsLongestHoldback(text, tag, |text|);
    } else {
      var tail := text[1..];
      LongestHoldbackExists(tail, tag);
      var k: nat :| IsLongestHoldback(tail, tag, k);
      assert text == text[..1] + tail;
      forall j: nat | j < |text| ensures IsHoldback(text, tag, j) == IsHoldback(tail, tag, j) {
        HoldbackIsLocal(text[..1], tail, tag, j);
      }
      assert IsLongestHoldback(text, tag, k);
    }
  }

  /** The same length as a function. */
  ghost function HoldbackLen(text: string, tag: string): (k: nat)
    requires tag != ""
    ensures IsLongestHoldback(text, tag, k)
  {
    LongestHoldbackExists(text, tag);
    var k: nat :| IsLongestHoldback(text, tag, k);
    k
  }

  // ---------- What the router has done after a text ----------

  /** A tag of `n` characters was found at `i`: what precedes it is reasoning, the answer follows. */
  function Closed(rest: string, i: nat, n: nat): Progress
    requires i + n <= |rest|
  {
    var answer := LStrip(rest[i + n..]);
    Progress(RouterState(Content, "", answer == ""), Routed(rest[..i], answer))
  }

  /** No tag yet: everything before `cut` has been emitted. */
  function Open(rest: string, cut: nat): Progress
    requires cut <= |rest|
  {
    Progress(RouterState(Reasoning, rest[cut..], false), Routed(rest[..cut], ""))
  }

  /** After the open tag and then `rest`, when reasoning ends with `tag`. */
  ghost function Scan(rest: string, tag: string): Progress
    requires tag != ""
  {
    var i := Find(rest, tag);
    if i >= 0 then
      Closed(rest, i, |tag|)
    else
      Open(rest, |rest| - HoldbackLen(rest, tag))
  }

  ghost function After(fed: string): Progress {
    var stripped := LStrip(fed);
    if stripped < OPEN_TAG then
      Progress(RouterState(Detecting, fed, false), Routed("", ""))
    else if OPEN_TAG <= stripped then
      Scan(stripped[|OPEN_TAG|..], CLOSE_TAG)
    else
      Progress(RouterState(Content, "", false), Routed("", fed))
  }

  /** What the end of the stream still releases. */
  function Released(state: RouterState): Routed {
    match state.phase
    case Detecting => Routed("", state.buffer)
    case Reasoning => Routed(state.buffer, "")
    case Content => Routed("", "")
  }

  // ---------- Cutting the text differently changes nothing ----------

  lemma OccurrenceInPrefix(text: string, x: string, tag: string, i: nat)
    requires i + |tag| <= |text|
    ensures OccursAt(text + x, tag, i) == OccursAt(text, tag, i)
  {
    assert text[i..i + |tag|] == (text + x)[i..i + |tag|];
  }

  lemma OccurrenceInSuffix(before: string, text: string, tag: string, i: nat)
    ensures OccursAt(before + text, tag, |before| + i) == OccursAt(text, tag, i)
  {
    if i + |tag| <= |text| {
      assert (before + text)[|before| + i..|before| + i + |tag|] == text[i..i + |tag|];
    }
  }

  /** The text read so far is `before + held`, it has no tag, and `held` is what is held back. */
  ghost predicate Holding(before: string, held: string, tag: string) {
    tag != "" && Find(before + held, tag) == -1 && IsLongestHoldback(before + held, tag, |held|)
  }

  /** A tag completed by `x` starts inside the held-back suffix or later. */
  lemma OccurrenceStartsInHoldback(before: string, held: string, x: string, tag: string, i: nat)
    requires Holding(before, held, tag)
    requires OccursAt(before + held + x, tag, i)
    ensures |before| <= i
  {
    var text := before + held;
    FindIsFirst(text, tag);
    if i + |tag| <= |text| {
      OccurrenceInPrefix(text, x, tag, i);
    } else if i < |text| {
      assert text[i..] == (text + x)[i..i + |tag|][..|text| - i];
      assert IsHoldback(text, tag, |text| - i);
    }
  }

  /** So the search may restart from the held-back suffix. */
  lemma TagAcrossFragments(before: string, held: string, x: string, tag: string)
    requires Holding(before, held, tag)
    ensures var within := Find(held + x, tag);
      Find(before + (held + x), tag) == if within == -1 then -1 else |before| + within
  {
    var whole, part := before + (held + x), held + x;
    assert whole == before + held + x;
    FindIsFirst(whole, tag);
    FindIsFirst(part, tag);
    var i, within := Find(whole, tag), Find(part, tag);
    if within >= 0 {
      OccurrenceInSuffix(before, part, tag, within);
    }
    if i >= 0 {
      OccurrenceStartsInHoldback(before, held, x, tag, i);
      OccurrenceInSuffix(before, part, tag, i - |before|);
    }
  }

  /** A suffix held back after `x` that is longer than `x` continues one held back before it. */
  lemma HoldbackOfLonger(text: string, x: string, tag: string, k: nat)
    requires |x| <= k && IsHoldback(text + x, tag, k)
    ensures IsHoldback(text, tag, k - |x|)
  {
    var j := k - |x|;
    assert (text + x)[|text + x| - k..][..j] == text[|text| - j..];
  }

  /** While no tag is complete, the held-back suffix is all that matters for the next one. */
  lemma HoldbackAcrossFragments(before: string, held: string, x: string, tag: string)
    requires Holding(before, held, tag)
    ensures HoldbackLen(before + (held + x), tag) == HoldbackLen(held + x, tag)
  {
    var text, whole, part := before + held, before + (held + x), held + x;
    var long, short := HoldbackLen(whole, tag), HoldbackLen(part, tag);
    HoldbackIsLocal(before, part, tag, short);
    assert whole == text + x;
    if long > |part| {
      HoldbackOfLonger(text, x, tag, long);
    } else {
      HoldbackIsLocal(before, part, tag, long);
    }
  }

  lemma ScanOpen(rest: string, tag: string, k: nat)
    requires tag != "" && Find(rest, tag) == -1 && IsLongestHoldback(rest, tag, k)
    ensures Scan(rest, tag) == Open(rest, |rest| - k)
  {
    var n := HoldbackLen(rest, tag);
    assert IsHoldback(rest, tag, n) && IsHoldback(rest, tag, k);
  }

  /** Progress on `whole` is progress on `part` after `before` has already been emitted as reasoning. */
  predicate Extends(whole: Progress, before: string, part: Progress) {
    && whole.state == part.state
    && whole.emitted.reasoning == before + part.emitted.reasoning
    && whole.emitted.content == part.emitted.content
  }

  lemma ClosedPast(before: string, text: string, i: nat, n: nat)
    requires i + n <= |text|
    ensures Extends(Closed(before + text, |before| + i, n), before, Closed(text, i, n))
  {
    assert (before + text)[|before| + i + n..] == text[i + n..];
  }

  lemma OpenPast(before: string, text: string, cut: nat)
    requires cut <= |text|
    ensures Extends(Open(before + text, |before| + cut), before, Open(text, cut))
  {
  }

  /** Feeding `x` while reasoning: search and hold back in the held-back text plus `x` only. */
  lemma ReasoningStep(before: string, held: string, x: string, tag: string)
    requires Holding(before, held, tag)
    ensures Extends(Scan(before + (held + x), tag), before, Scan(held + x, tag))
  {
    TagAcrossFragments(before, held, x, tag);
    if Find(held + x, tag) >= 0 {
      FoundStep(before, held + x, tag);
    } else {
      HoldbackAcrossFragments(before, held, x, tag);
      OpenStep(before, held + x, tag);
    }
  }

  lemma FoundStep(before: string, text: string, tag: string)
    requires tag != "" && Find(text, tag) >= 0
    requires Find(before + text, tag) == |before| + Find(text, tag)
    ensures Extends(Scan(before + text, tag), before, Scan(text, tag))
  {
    ClosedPast(before, text, Find(text, tag), |tag|);
  }

  lemma OpenStep(before: string, text: string, tag: string)
    requires tag != "" && Find(text, tag) == Find(before + text, tag) == -1
    requires HoldbackLen(before + text, tag) == HoldbackLen(text, tag)
    ensures Extends(Scan(before + text, tag), before, Scan(text, tag))
  {
    OpenPast(before, text, |text| - HoldbackLen(text, tag));
  }

  /** Feeding `x` after the tag. */
  lemma AnswerStep(rest: string, x: string, tag: string)
    requires tag != "" && Find(rest, tag) >= 0
    ensures var before := Scan(rest, tag);
      var shown := if before.state.skipWsAfterClose then LStrip(x) else x;
      Scan(rest + x, tag) ==
      Progress(RouterState(Content, "", before.state.skipWsAfterClose && shown == ""),
               before.emitted.Then(Routed("", shown)))
  {
    FoundTagStays(rest, x, tag);
    var i := Find(rest, tag);
    ClosedStep(rest, i, |tag|, x);
  }

  lemma FoundTagStays(rest: string, x: string, tag: string)
    requires Find(rest, tag) >= 0
    ensures var i := Find(rest, tag);
      Find(rest + x, tag) == i
  {
    var i, j := Find(rest, tag), Find(rest + x, tag);
    FindIsFirst(rest, tag);
    FindIsFirst(rest + x, tag);
    OccurrenceInPrefix(rest, x, tag, i);
    OccurrenceInPrefix(rest, x, tag, j);
  }

  lemma ClosedStep(rest: string, i: nat, n: nat, x: string)
    requires i + n <= |rest|
    ensures var before := Closed(rest, i, n);
      var shown := if before.state.skipWsAfterClose then LStrip(x) else x;
      Closed(rest + x, i, n) ==
      Progress(RouterState(Content, "", before.state.skipWsAfterClose && shown == ""),
               before.emitted.Then(Routed("", shown)))
  {
    assert (rest + x)[i + n..] == rest[i + n..] + x;
    LStripAppend(rest[i + n..], x);
    assert rest[..i] + "" == rest[..i] == (rest + x)[..i];
  }

  /** Once the open tag has been found or ruled out, whitespace no longer matters. */
  lemma DecidedStep(fed: string, x: string)
    requires !(LStrip(fed) < OPEN_TAG)
    ensures var stripped := LStrip(fed);
      LStrip(fed + x) == stripped + x
      && (OPEN_TAG <= stripped <==> OPEN_TAG <= stripped + x)
      && !(stripped + x < OPEN_TAG)
      && (OPEN_TAG <= stripped ==> (stripped + x)[|OPEN_TAG|..] == stripped[|OPEN_TAG|..] + x)
  {
    LStripAppend(fed, x);
  }

  lemma FeedReasoningStep(fed: string, x: string)
    requires After(fed).state.phase.Reasoning?
    ensures var before := After(fed);
      Extends(After(fed + x), before.emitted.reasoning, Scan(before.state.buffer + x, CLOSE_TAG))
  {
    DecidedStep(fed, x);
    var rest := LStrip(fed)[|OPEN_TAG|..];
    var before, held := After(fed).emitted.reasoning, After(fed).state.buffer;
    assert rest == before + held && rest + x == before + (held + x);
    ReasoningStep(before, held, x, CLOSE_TAG);
  }

  lemma FeedContentStep(fed: string, x: string)
    requires After(fed).state.phase.Content?
    ensures var before := After(fed);
      var shown := if before.state.skipWsAfterClose then LStrip(x) else x;
      After(fed + x) ==
      Progress(RouterState(Content, "", before.state.skipWsAfterClose && shown == ""),
               before.emitted.Then(Routed("", shown)))
  {
    DecidedStep(fed, x);
    if OPEN_TAG <= LStrip(fed) {
      AnswerStep(LStrip(fed)[|OPEN_TAG|..], x, CLOSE_TAG);
    } else {
      assert "" + "" == "";
    }
  }

  /** Emission only ever grows: what was emitted for a prefix is a prefix of what is emitted later. */
  lemma EmissionGrows(fed: string, x: string)
    ensures After(fed).emitted.reasoning <= After(fed + x).emitted.reasoning
    ensures After(fed).emitted.content <= After(fed + x).emitted.content
  {
    match After(fed).state.phase
    case Detecting =>
    case Reasoning => FeedReasoningStep(fed, x);
    case Content => FeedContentStep(fed, x);
  }

  // ---------- What is held back, and why ----------

  /** In every reachable state the buffer is one of: undecided input, an unfinished close tag, nothing. */
  lemma BufferInvariant(fed: string)
    ensures var state := After(fed).state;
      match state.phase
      case Detecting =>
        exists n | 0 <= n <= |state.buffer| :: AllSpace(state.buffer[..n]) && state.buffer[n..] < OPEN_TAG
      case Reasoning => state.buffer < CLOSE_TAG && !state.skipWsAfterClose
      case Content => state.buffer == ""
  {
    if After(fed).state.phase.Detecting? {
      assert AllSpace(fed[..LeadingSpaces(fed)]);
    }
  }

  /**
   * The module documentation bounds the held-back text by the length of the close tag. Leading
   * whitespace is held back too, so the bound fails exactly for long undecided starts of a stream.
   */
  lemma HoldbackBound(fed: string)
    ensures |After(fed).state.buffer| <= |CLOSE_TAG| <==> !(LStrip(fed) < OPEN_TAG && |fed| > |CLOSE_TAG|)
  {
    BufferInvariant(fed);
  }

  lemma HoldbackBoundExceeded()
    ensures |After("\n\n\n\n\n\n\n\n\n").state.buffer| == 9 > |CLOSE_TAG|
  {
    var s := "\n\n\n\n\n\n\n\n\n";
    assert s + "" == s;
    LStripUnique(s, "");
  }

  /**
   * Nothing is held back without need: were the held-back text followed by the rest of the close
   * tag, none of it would be reasoning.
   */
  lemma HoldbackIsNecessary(fed: string, x: string)
    requires After(fed).state.phase.Reasoning?
    requires After(fed).state.buffer + x == CLOSE_TAG
    ensures After(fed + x) == Progress(RouterState(Content, "", true), After(fed).emitted)
  {
    FeedReasoningStep(fed, x);
    CloseTagAlone(CLOSE_TAG);
    var reasoning := After(fed).emitted.reasoning;
    assert reasoning + "" == reasoning;
  }

  lemma CloseTagAlone(tag: string)
    requires tag == CLOSE_TAG
    ensures Scan(tag, CLOSE_TAG) == Progress(RouterState(Content, "", true), Routed("", ""))
  {
    FindIsFirst(tag, CLOSE_TAG);
    assert OccursAt(tag, CLOSE_TAG, 0);
    assert tag[|CLOSE_TAG|..] == "";
  }

  // ---------- The router ----------

  class ThinkTagStreamRouter {
    var phase: Phase
    /** Detection buffer, or reasoning holdback. */
    var buffer: string
    var skipWsAfterClose: bool
    /** Everything fed so far. */
    ghost var fed: string

    ghost predicate Valid()
      reads this
    {
      State() == After(fed).state
    }

    function State(): RouterState
      reads this
    {
      RouterState(phase, buffer, skipWsAfterClose)
    }

    constructor ()
      ensures Valid() && fed == ""
    {
      phase, buffer, skipWsAfterClose, fed := Detecting, "", false, "";
    }

    /** Process the next fragment; the new state and the growth of the output are those of the longer text. */
    method Feed(text: string) returns (reasoning: string, content: string)
      requires Valid()
      modifies this
      ensures Valid() && fed == old(fed) + text
      ensures After(old(fed)).emitted.Then(Routed(reasoning, content)) == After(fed).emitted
    {
      fed := fed + text;
      if text == "" {
        assert fed == old(fed);
        return "", "";
      }
      if phase.Detecting? {
        reasoning, content := FeedDetecting(text);
        return;
      }
      if phase.Reasoning? {
        FeedReasoningStep(old(fed), text);
        reasoning, content := FeedReasoning(text);
        return;
      }
      FeedContentStep(old(fed), text);
      reasoning := "";
      content := FeedContent(text);
    }

    /** Release whatever is still held back at the end of the stream. */
    method Flush() returns (reasoning: string, content: string)
      modifies this
      ensures Routed(reasoning, content) == Released(old(State()))
      ensures State() == old(State()).(phase := if old(phase).Detecting? then Content else old(phase), buffer := "")
      ensures Released(State()) == Routed("", "")
    {
      var held := buffer;
      buffer := "";
      if phase.Detecting? {
        phase := Content;
        return "", held;
      }
      if phase.Reasoning? {
        return held, "";
      }
      return "", "";
    }

    method FeedDetecting(text: string) returns (reasoning: string, content: string)
      requires phase.Detecting? && !skipWsAfterClose
      requires buffer + text == fed
      modifies this`phase, this`buffer, this`skipWsAfterClose
      ensures Progress(State(), Routed(reasoning, content)) == After(fed)
    {
      buffer := buffer + text;
      var stripped := LStrip(buffer);
      if OPEN_TAG <= stripped {
        var remainder := stripped[|OPEN_TAG|..];
        buffer := "";
        phase := Reasoning;
        if remainder != "" {
          assert "" + remainder == remainder;
          reasoning, content := FeedReasoning(remainder);
        } else {
          reasoning, content := "", "";
        }
        return;
      }
      if |stripped| < |OPEN_TAG| && stripped <= OPEN_TAG {
        return "", "";
      }
      var released := buffer;
      buffer := "";
      phase := Content;
      return "", released;
    }

    method FeedReasoning(text: string) returns (reasoning: string, content: string)
      requires phase.Reasoning? && !skipWsAfterClose
      modifies this`phase, this`buffer, this`skipWsAfterClose
      ensures Progress(State(), Routed(reasoning, content)) == Scan(old(buffer) + text, CLOSE_TAG)
    {
      var working := buffer + text;
      buffer := "";
      var idx := FindIndex(working, CLOSE_TAG);
      if idx >= 0 {
        reasoning := working[..idx];
        var rest := working[idx + |CLOSE_TAG|..];
        phase := Content;
        skipWsAfterClose := true;
        content := FeedContent(rest);
        return;
      }
      var holdback := PartialSuffixLen(working, CLOSE_TAG);
      ScanOpen(working, CLOSE_TAG, holdback);
      reasoning, content := working, "";
      if holdback > 0 {
        buffer := working[|working| - holdback..];
        reasoning := working[..|working| - holdback];
      }
    }

    method FeedContent(text: string) returns (shown: string)
      modifies this`skipWsAfterClose
      ensures shown == if old(skipWsAfterClose) then LStrip(text) else text
      ensures skipWsAfterClose == (old(skipWsAfterClose) && shown == "")
    {
      shown := text;
      if skipWsAfterClose {
        shown := LStrip(text);
        if shown == "" {
          return "";
        }
        skipWsAfterClose := false;
      }
    }
  }
}
