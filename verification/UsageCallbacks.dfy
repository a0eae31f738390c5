/**
 * Accumulating token usage from callbacks. Each callback sees every model's cumulative totals; only
 * the growth since the last callback goes into the session, and with it the breakdowns and the
 * usage block of the response itself.
 */
module UsageCallbacks {
  import opened Basics
  import opened Wrappers

  // ---------- The session ----------

  /** A value in a usage record: a number, or anything else. */
  datatype UsageValue = Number(n: int) | Other(text: string)

  type Usage = map<string, UsageValue>

  function Value(usage: Usage, key: string): int {
    if key in usage && usage[key].Number? then usage[key].n else 0
  }

  ghost predicate AllNumbers(usage: Usage) {
    forall key | key in usage :: usage[key].Number?
  }

  /** A number cannot be added to something that is none. */
  predicate Clashes(usage: Usage, fragment: Usage, key: string) {
    key in usage && key in fragment && usage[key].Other? && fragment[key].Number?
  }

  /** Numbers add up, anything else replaces what was there. */
  function Merged(usage: Usage, fragment: Usage, key: string): Option<UsageValue> {
    if key !in fragment then if key in usage then Some(usage[key]) else None
    else if fragment[key].Number? then Some(Number(Value(usage, key) + fragment[key].n))
    else Some(fragment[key])
  }

  class UsageSession {
    var accumulated: Usage

    constructor ()
      ensures accumulated == map[]
    {
      accumulated := map[];
    }

    method Accumulate(fragment: Usage) returns (raised: bool)
      modifies this
      ensures raised <==> exists key :: Clashes(old(accumulated), fragment, key)
      ensures !raised ==> forall key :: Get(accumulated, key) == Merged(old(accumulated), fragment, key)
      ensures raised ==> forall key ::
        Get(accumulated, key) == Get(old(accumulated), key) || Get(accumulated, key) == Merged(old(accumulated), fragment, key)
    {
      var left := fragment.Keys;
      while left != {}
        invariant left <= fragment.Keys
        invariant forall key :: Get(accumulated, key) ==
                    if key in left then Get(old(accumulated), key) else Merged(old(accumulated), fragment, key)
        invariant forall key | key !in left :: !Clashes(old(accumulated), fragment, key)
        decreases left
      {
        var key :| key in left;
        assert Get(accumulated, key) == Get(old(accumulated), key);
        if fragment[key].Number? {
          if key in accumulated && accumulated[key].Other? {
            assert Clashes(old(accumulated), fragment, key);
            return true;
          }
          accumulated := accumulated[key := Number(Value(accumulated, key) + fragment[key].n)];
        } else {
          accumulated := accumulated[key := fragment[key]];
        }
        left := left - {key};
      }
      return false;
    }
  }

  // ---------- One callback ----------

  /** A model's cumulative `usage_metadata`; `details` are its numeric breakdowns, input before output. */
  datatype Meta = Meta(input: nat, output: nat, total: Option<nat>, details: seq<(string, int)>)

  /** The handler's `usage_metadata`: models in the order in which they first appeared. */
  type Snapshot = seq<(string, Meta)>

  datatype Totals = Totals(input: nat, output: nat, total: nat)

  const DETAIL_SUFFIX := "_tokens"

  function TotalOf(m: Meta): nat {
    if m.total.Some? then m.total.value else m.input + m.output
  }

  function LastTotals(totals: map<string, Totals>, model: string): Totals {
    if model in totals then totals[model] else Totals(0, 0, 0)
  }

  /** A total grew since the model was last seen. */
  predicate Grew(prev: Totals, meta: Meta) {
    meta.input > prev.input || meta.output > prev.output || TotalOf(meta) > prev.total
  }

  /** The growth of the count named `key`. */
  function CoreDelta(prev: Totals, meta: Meta, key: string): nat {
    if key == "input_tokens" then Max0(meta.input - prev.input)
    else if key == "output_tokens" then Max0(meta.output - prev.output)
    else if key == "total_tokens" && meta.total.Some? then Max0(TotalOf(meta) - prev.total)
    else 0
  }

  predicate IsDetail(d: (string, int), key: string) {
    d.1 > 0 && d.0 + DETAIL_SUFFIX == key
  }

  /** The breakdowns that are reported under `key`. */
  function DetailSum(details: seq<(string, int)>, key: string): nat {
    if details == [] then 0
    else
      var d := details[|details| - 1];
      DetailSum(details[..|details| - 1], key) + if IsDetail(d, key) then d.1 else 0
  }

  function TotalsWith(totals: map<string, Totals>, model: string, meta: Meta): map<string, Totals> {
    if Grew(LastTotals(totals, model), meta) then totals[model := Totals(meta.input, meta.output, TotalOf(meta))] else totals
  }

  function TotalsAfter(totals: map<string, Totals>, s: Snapshot): map<string, Totals> {
    if s == [] then totals
    else TotalsWith(TotalsAfter(totals, s[..|s| - 1]), s[|s| - 1].0, s[|s| - 1].1)
  }

  /** A model's breakdowns go into the session whenever one of its totals grew. */
  function DetailsOf(prev: Totals, meta: Meta, key: string): nat {
    if Grew(prev, meta) then DetailSum(meta.details, key) else 0
  }

  /** What a model adds to the session's count `key`. */
  function Contribution(prev: Totals, meta: Meta, key: string): nat {
    (if Grew(prev, meta) then CoreDelta(prev, meta, key) else 0) + DetailsOf(prev, meta, key)
  }

  /** What the models of a callback add to it. */
  function Added(totals: map<string, Totals>, s: Snapshot, key: string): nat {
    if s == [] then 0
    else
      var init, (model, meta) := s[..|s| - 1], s[|s| - 1];
      Added(totals, init, key) + Contribution(LastTotals(TotalsAfter(totals, init), model), meta, key)
  }

  /** The part of it that is no growth of a total: the breakdowns, which are added as they stand. */
  function DetailsAdded(totals: map<string, Totals>, s: Snapshot, key: string): nat {
    if s == [] then 0
    else
      var init, (model, meta) := s[..|s| - 1], s[|s| - 1];
      DetailsAdded(totals, init, key) + DetailsOf(LastTotals(TotalsAfter(totals, init), model), meta, key)
  }

  function Count(counts: map<string, nat>, key: string): nat {
    if key in counts then counts[key] else 0
  }

  /** From `before` to `after` each count grew by `amount`; if there was an error, only some of them did. */
  ghost predicate Adds(before: Usage, after: Usage, amount: string -> int, raised: bool) {
    forall key :: Value(after, key) == Value(before, key) + amount(key) || (raised && Value(after, key) == Value(before, key))
  }

  /** An error stopped the callback at its model `n`, or at its usage block after the last model. */
  ghost predicate StopsAt(before: Usage, after: Usage, totals: map<string, Totals>, totalsAfter: map<string, Totals>,
                          s: Snapshot, usageBlock: map<string, nat>, n: nat) {
    && n <= |s| && totalsAfter == TotalsAfter(totals, s[..n])
    && forall key ::
         var next := if n == |s| then Count(usageBlock, key) else Contribution(LastTotals(totalsAfter, s[n].0), s[n].1, key);
         var sofar := Value(before, key) + Added(totals, s[..n], key);
         Value(after, key) == sofar || Value(after, key) == sofar + next
  }

  class LLMUsageCallbackHandler {
    const usageSession: UsageSession
    var lastModelTotals: map<string, Totals>

    constructor (usageSession: UsageSession)
      ensures this.usageSession == usageSession && lastModelTotals == map[]
    {
      this.usageSession, lastModelTotals := usageSession, map[];
    }

    /**
     * `usageBlock` are the numbers in the usage block of the response, if it has one. An error is
     * swallowed: `completed` says whether there was none.
     */
    method OnLlmEnd(usageMetadata: Snapshot, usageBlock: map<string, nat>) returns (completed: bool)
      modifies this`lastModelTotals, usageSession
      ensures AllNumbers(old(usageSession.accumulated)) ==> completed && AllNumbers(usageSession.accumulated)
      ensures completed ==> lastModelTotals == TotalsAfter(old(lastModelTotals), usageMetadata)
      ensures completed ==> forall key ::
                Value(usageSession.accumulated, key) ==
                Value(old(usageSession.accumulated), key) + Added(old(lastModelTotals), usageMetadata, key) + Count(usageBlock, key)
      ensures !completed ==> exists n: nat ::
                StopsAt(old(usageSession.accumulated), usageSession.accumulated, old(lastModelTotals), lastModelTotals,
                        usageMetadata, usageBlock, n)
    {
      for n := 0 to |usageMetadata|
        invariant AllNumbers(old(usageSession.accumulated)) ==> AllNumbers(usageSession.accumulated)
        invariant lastModelTotals == TotalsAfter(old(lastModelTotals), usageMetadata[..n])
        invariant forall key :: Value(usageSession.accumulated, key) ==
                    Value(old(usageSession.accumulated), key) + Added(old(lastModelTotals), usageMetadata[..n], key)
      {
        assert usageMetadata[..n + 1][..n] == usageMetadata[..n];
        var raised := OnModel(usageMetadata[n].0, usageMetadata[n].1);
        if raised {
          assert StopsAt(old(usageSession.accumulated), usageSession.accumulated, old(lastModelTotals), lastModelTotals,
                         usageMetadata, usageBlock, n);
          return false;
        }
      }
      assert usageMetadata[..|usageMetadata|] == usageMetadata;
      var raised := AddNumbers(map key | key in usageBlock :: Number(usageBlock[key]));
      if raised {
        assert StopsAt(old(usageSession.accumulated), usageSession.accumulated, old(lastModelTotals), lastModelTotals,
                       usageMetadata, usageBlock, |usageMetadata|);
      }
      completed := !raised;
    }

    /** One model: what its totals grew by goes into the session, and the totals are remembered. */
    method OnModel(model: string, meta: Meta) returns (raised: bool)
      modifies this`lastModelTotals, usageSession
      ensures AllNumbers(old(usageSession.accumulated)) ==> !raised && AllNumbers(usageSession.accumulated)
      ensures lastModelTotals == if raised then old(lastModelTotals) else TotalsWith(old(lastModelTotals), model, meta)
      ensures var prev := LastTotals(old(lastModelTotals), model);
        Adds(old(usageSession.accumulated), usageSession.accumulated, key => Contribution(prev, meta, key), raised)
    {
      var prev := LastTotals(lastModelTotals, model);
      var deltaInput, deltaOutput := Max0(meta.input - prev.input), Max0(meta.output - prev.output);
      var deltaTotal := Max0(TotalOf(meta) - prev.total);
      if deltaInput != 0 || deltaOutput != 0 || deltaTotal != 0 {
        var fragment := Fragment(meta, deltaInput, deltaOutput, deltaTotal);
        raised := AddNumbers(fragment);
        assert forall key :: Value(fragment, key) == Contribution(prev, meta, key);
        if raised {
          return;
        }
        lastModelTotals := lastModelTotals[model := Totals(meta.input, meta.output, TotalOf(meta))];
        return;
      }
      raised := false;
    }

    /** An empty fragment is not accumulated at all. */
    method AddNumbers(fragment: Usage) returns (raised: bool)
      requires AllNumbers(fragment)
      modifies usageSession
      ensures raised <==> exists key :: Clashes(old(usageSession.accumulated), fragment, key)
      ensures AllNumbers(old(usageSession.accumulated)) ==> AllNumbers(usageSession.accumulated)
      ensures Adds(old(usageSession.accumulated), usageSession.accumulated, key => Value(fragment, key), raised)
    {
      raised := false;
      if fragment != map[] {
        raised := usageSession.Accumulate(fragment);
        NumbersAdd(old(usageSession.accumulated), fragment, usageSession.accumulated, raised);
      }
    }

    method Fragment(meta: Meta, deltaInput: nat, deltaOutput: nat, deltaTotal: nat) returns (fragment: Usage)
      ensures AllNumbers(fragment)
      ensures forall key ::
                Value(fragment, key) ==
                DetailSum(meta.details, key)
                + (if key == "input_tokens" then deltaInput
                   else if key == "output_tokens" then deltaOutput
                   else if key == "total_tokens" && meta.total.Some? then deltaTotal
                   else 0)
    {
      fragment := map[];
      if deltaInput != 0 {
        fragment := fragment["input_tokens" := Number(deltaInput)];
      }
      if deltaOutput != 0 {
        fragment := fragment["output_tokens" := Number(deltaOutput)];
      }
      if deltaTotal != 0 && meta.total.Some? {
        fragment := fragment["total_tokens" := Number(deltaTotal)];
      }
      ghost var core := fragment;
      for n := 0 to |meta.details|
        invariant AllNumbers(fragment)
        invariant forall key :: Value(fragment, key) == Value(core, key) + DetailSum(meta.details[..n], key)
      {
        assert meta.details[..n + 1][..n] == meta.details[..n];
        var (detail, val) := meta.details[n];
        if val > 0 {
          var key := detail + DETAIL_SUFFIX;
          fragment := fragment[key := Number(Value(fragment, key) + val)];
        }
      }
      assert meta.details[..|meta.details|] == meta.details;
    }
  }

  lemma NumbersAdd(usage: Usage, fragment: Usage, after: Usage, raised: bool)
    requires AllNumbers(fragment)
    requires raised <==> exists key :: Clashes(usage, fragment, key)
    requires !raised ==> forall key :: Get(after, key) == Merged(usage, fragment, key)
    requires raised ==> forall key :: Get(after, key) == Get(usage, key) || Get(after, key) == Merged(usage, fragment, key)
    ensures AllNumbers(usage) ==> AllNumbers(after)
    ensures Adds(usage, after, key => Value(fragment, key), raised)
  {
    forall key
      ensures Value(after, key) == Value(usage, key) + Value(fragment, key) || (raised && Value(after, key) == Value(usage, key))
      ensures AllNumbers(usage) && key in after ==> after[key].Number?
    {
      assert Get(after, key) == Get(usage, key) || Get(after, key) == Merged(usage, fragment, key);
    }
  }

  // ---------- Cumulative totals ----------

  /** The counts that are reported as cumulative totals. */
  datatype Core = InputCount | OutputCount | TotalCount {
    function Name(): string {
      match this
      case InputCount => "input_tokens"
      case OutputCount => "output_tokens"
      case TotalCount => "total_tokens"
    }

    function Of(m: Meta): nat {
      match this
      case InputCount => m.input
      case OutputCount => m.output
      case TotalCount => if m.total.Some? then m.total.value else m.input + m.output
    }

    function Last(totals: map<string, Totals>, model: string): nat {
      match this
      case InputCount => LastTotals(totals, model).input
      case OutputCount => LastTotals(totals, model).output
      case TotalCount => LastTotals(totals, model).total
    }

    /** The sum over models of their totals. */
    function Sum(s: Snapshot): int {
      if s == [] then 0 else Sum(s[..|s| - 1]) + Of(s[|s| - 1].1)
    }

    /** The total of the model at index `i`, or zero if it had not appeared yet. */
    function At(s: Snapshot, i: nat): nat {
      if i < |s| then Of(s[i].1) else 0
    }
  }

  ghost predicate DistinctModels(s: Snapshot) {
    forall i, j | 0 <= i < j < |s| :: s[i].0 != s[j].0
  }

  /** Models are only added, and no model's total decreases. */
  ghost predicate Grows(core: Core, earlier: Snapshot, later: Snapshot) {
    && |earlier| <= |later|
    && forall i | 0 <= i < |earlier| :: earlier[i].0 == later[i].0 && core.Of(earlier[i].1) <= core.Of(later[i].1)
  }

  /** Every model reports the count; input and output are always reported. */
  ghost predicate IsGiven(core: Core, s: Snapshot) {
    core.TotalCount? ==> forall i | 0 <= i < |s| :: s[i].1.total.Some?
  }

  /** The remembered totals are those of `later` for its first `n` models, and those of `earlier` for the rest. */
  ghost predicate SyncedUpto(core: Core, totals: map<string, Totals>, later: Snapshot, n: nat, earlier: Snapshot) {
    && (forall i | 0 <= i < |later| :: core.Last(totals, later[i].0) == core.At(if i < n then later else earlier, i))
    && forall model | model in totals :: exists i | 0 <= i < |later| :: later[i].0 == model
  }

  ghost predicate Synced(core: Core, totals: map<string, Totals>, s: Snapshot) {
    SyncedUpto(core, totals, s, |s|, s)
  }

  lemma SyncedStart(core: Core, totals: map<string, Totals>, earlier: Snapshot, later: Snapshot)
    requires Synced(core, totals, earlier) && Grows(core, earlier, later) && DistinctModels(later)
    ensures SyncedUpto(core, totals, later, 0, earlier)
  {
    forall i | 0 <= i < |later| ensures core.Last(totals, later[i].0) == core.At(earlier, i) {
      if i < |earlier| {
        assert core.Last(totals, earlier[i].0) == core.At(earlier, i);
      } else {
        assert forall j | 0 <= j < |earlier| :: earlier[j].0 == later[j].0 != later[i].0;
      }
    }
    forall model | model in totals ensures exists i | 0 <= i < |later| :: later[i].0 == model {
      var j :| 0 <= j < |earlier| && earlier[j].0 == model;
      assert later[j].0 == model;
    }
  }

  lemma SyncedStep(core: Core, before: map<string, Totals>, after: map<string, Totals>, later: Snapshot, n: nat, earlier: Snapshot)
    requires SyncedUpto(core, before, later, n, earlier) && DistinctModels(later) && n < |later|
    requires core.Last(after, later[n].0) == core.At(later, n)
    requires forall other | other != later[n].0 :: LastTotals(after, other) == LastTotals(before, other)
    requires after.Keys <= before.Keys + {later[n].0}
    ensures SyncedUpto(core, after, later, n + 1, earlier)
  {
    forall i | 0 <= i < |later|
      ensures core.Last(after, later[i].0) == core.At(if i < n + 1 then later else earlier, i)
    {
      assert i != n ==> later[i].0 != later[n].0;
    }
  }

  // ---------- Runs of callbacks ----------

  function Upto(s: Snapshot, n: nat): Snapshot {
    if n <= |s| then s[..n] else s
  }

  lemma SumOneMore(core: Core, s: Snapshot, n: nat)
    ensures core.Sum(Upto(s, n + 1)) == core.Sum(Upto(s, n)) + core.At(s, n)
  {
    if n < |s| {
      assert s[..n + 1][..n] == s[..n];
    } else {
      assert s[..|s|] == s;
    }
  }

  datatype Callback = Callback(usageMetadata: Snapshot, usageBlock: map<string, nat>)

  function TotalsAfterRun(callbacks: seq<Callback>): map<string, Totals> {
    if callbacks == [] then map[]
    else TotalsAfter(TotalsAfterRun(callbacks[..|callbacks| - 1]), callbacks[|callbacks| - 1].usageMetadata)
  }

  /** The count `key` of a session after a run. */
  function Accumulated(callbacks: seq<Callback>, key: string): nat {
    if callbacks == [] then 0
    else
      var init, last := callbacks[..|callbacks| - 1], callbacks[|callbacks| - 1];
      Accumulated(init, key) + Added(TotalsAfterRun(init), last.usageMetadata, key) + Count(last.usageBlock, key)
  }

  /** A session, whatever the callbacks and models. */
  method Session(callbacks: seq<Callback>) returns (usage: Usage)
    ensures AllNumbers(usage) && forall key :: Value(usage, key) == Accumulated(callbacks, key)
  {
    var session := new UsageSession();
    var handler := new LLMUsageCallbackHandler(session);
    for n := 0 to |callbacks|
      invariant fresh(session) && fresh(handler) && handler.usageSession == session
      invariant AllNumbers(session.accumulated) && handler.lastModelTotals == TotalsAfterRun(callbacks[..n])
      invariant forall key :: Value(session.accumulated, key) == Accumulated(callbacks[..n], key)
    {
      assert callbacks[..n + 1][..n] == callbacks[..n];
      var completed := handler.OnLlmEnd(callbacks[n].usageMetadata, callbacks[n].usageBlock);
    }
    assert callbacks[..|callbacks|] == callbacks;
    usage := session.accumulated;
  }

  /** What was added under `key` besides growth of totals: breakdowns, and the responses' own usage blocks. */
  function AddedBesidesGrowth(callbacks: seq<Callback>, key: string): nat {
    if callbacks == [] then 0
    else
      var init, last := callbacks[..|callbacks| - 1], callbacks[|callbacks| - 1];
      AddedBesidesGrowth(init, key) + DetailsAdded(TotalsAfterRun(init), last.usageMetadata, key) + Count(last.usageBlock, key)
  }

  /** Every model reports the count, as a total that never decreases from one callback to the next. */
  ghost predicate Cumulative(core: Core, callbacks: seq<Callback>) {
    && (forall i | 0 <= i < |callbacks| :: DistinctModels(callbacks[i].usageMetadata) && IsGiven(core, callbacks[i].usageMetadata))
    && forall i, j | 0 <= i < |callbacks| && j == i + 1 && j < |callbacks| ::
         Grows(core, callbacks[i].usageMetadata, callbacks[j].usageMetadata)
  }

  function Latest(callbacks: seq<Callback>): Snapshot {
    if callbacks == [] then [] else callbacks[|callbacks| - 1].usageMetadata
  }

  /** While its total does not decrease, a model adds its growth and its breakdowns. */
  lemma ContributionIsGrowth(core: Core, totals: map<string, Totals>, model: string, meta: Meta)
    requires core.Last(totals, model) <= core.Of(meta) && (core.TotalCount? ==> meta.total.Some?)
    ensures var prev := LastTotals(totals, model);
      Contribution(prev, meta, core.Name()) == core.Of(meta) - core.Last(totals, model) + DetailsOf(prev, meta, core.Name())
  {
  }

  lemma AddedOneMore(totals: map<string, Totals>, s: Snapshot, n: nat, key: string)
    requires n < |s|
    ensures var before := TotalsAfter(totals, s[..n]); var prev := LastTotals(before, s[n].0);
      && TotalsAfter(totals, s[..n + 1]) == TotalsWith(before, s[n].0, s[n].1)
      && Added(totals, s[..n + 1], key) == Added(totals, s[..n], key) + Contribution(prev, s[n].1, key)
      && DetailsAdded(totals, s[..n + 1], key) == DetailsAdded(totals, s[..n], key) + DetailsOf(prev, s[n].1, key)
  {
    assert s[..n + 1][..n] == s[..n];
  }

  /** The remembered totals after one model. */
  lemma SyncedModel(core: Core, before: map<string, Totals>, later: Snapshot, n: nat, earlier: Snapshot)
    requires SyncedUpto(core, before, later, n, earlier) && DistinctModels(later) && Grows(core, earlier, later) && n < |later|
    ensures core.Last(before, later[n].0) == core.At(earlier, n) <= core.Of(later[n].1)
    ensures SyncedUpto(core, TotalsWith(before, later[n].0, later[n].1), later, n + 1, earlier)
  {
    assert core.Last(before, later[n].0) == core.At(earlier, n);
    assert n < |earlier| ==> core.Of(earlier[n].1) <= core.Of(later[n].1);
    SyncedStep(core, before, TotalsWith(before, later[n].0, later[n].1), later, n, earlier);
  }

  /** Within a callback: the first `n` models have added their growth, and are in step. */
  lemma {:induction false} GrowthUpto(core: Core, totals: map<string, Totals>, earlier: Snapshot, later: Snapshot, n: nat)
    requires SyncedUpto(core, totals, later, 0, earlier) && DistinctModels(later) && IsGiven(core, later)
    requires Grows(core, earlier, later) && n <= |later|
    ensures SyncedUpto(core, TotalsAfter(totals, later[..n]), later, n, earlier)
    ensures Added(totals, later[..n], core.Name()) ==
            core.Sum(later[..n]) - core.Sum(Upto(earlier, n)) + DetailsAdded(totals, later[..n], core.Name())
  {
    if n > 0 {
      var m := n - 1;
      GrowthUpto(core, totals, earlier, later, m);
      var before := TotalsAfter(totals, later[..m]);
      SyncedModel(core, before, later, m, earlier);
      ContributionIsGrowth(core, before, later[m].0, later[m].1);
      AddedOneMore(totals, later, m, core.Name());
      SumOneMore(core, later, m);
      SumOneMore(core, earlier, m);
      assert core.At(later, m) == core.Of(later[m].1);
      assert Upto(later, n) == later[..n] && Upto(later, m) == later[..m];
      hide *;
    }
  }

  /** Telescoping: what has accumulated is the sum of the latest totals and what was added besides growth. */
  lemma {:induction false} Telescopes(core: Core, callbacks: seq<Callback>)
    requires Cumulative(core, callbacks)
    ensures Synced(core, TotalsAfterRun(callbacks), Latest(callbacks))
    ensures Accumulated(callbacks, core.Name()) == core.Sum(Latest(callbacks)) + AddedBesidesGrowth(callbacks, core.Name())
  {
    if callbacks != [] {
      var init, last := callbacks[..|callbacks| - 1], callbacks[|callbacks| - 1];
      Telescopes(core, init);
      var earlier, later := Latest(init), last.usageMetadata;
      assert Grows(core, earlier, later);
      SyncedStart(core, TotalsAfterRun(init), earlier, later);
      GrowthUpto(core, TotalsAfterRun(init), earlier, later, |later|);
      assert later[..|later|] == later && Upto(earlier, |later|) == earlier;
    }
  }

  // ---------- When only growth is added ----------

  /** Model `i` of a callback grew and has a breakdown under `key`. */
  predicate HasDetail(totals: map<string, Totals>, s: Snapshot, key: string, i: nat) {
    && i < |s| && Grew(LastTotals(TotalsAfter(totals, s[..i]), s[i].0), s[i].1)
    && exists d | d in s[i].1.details :: IsDetail(d, key)
  }

  lemma {:induction false} NoDetailSumIff(details: seq<(string, int)>, key: string)
    ensures DetailSum(details, key) == 0 <==> forall d | d in details :: !IsDetail(d, key)
  {
    if details != [] {
      var init, last := details[..|details| - 1], details[|details| - 1];
      NoDetailSumIff(init, key);
      assert forall d :: d in details <==> d in init || d == last;
    }
  }

  lemma {:induction false} NoDetailsAddedIff(totals: map<string, Totals>, s: Snapshot, key: string)
    ensures DetailsAdded(totals, s, key) == 0 <==> forall i: nat :: !HasDetail(totals, s, key, i)
  {
    if s != [] {
      var m := |s| - 1;
      var init := s[..m];
      NoDetailsAddedIff(totals, init, key);
      NoDetailSumIff(s[m].1.details, key);
      AddedOneMore(totals, s, m, key);
      assert s[..m + 1] == s;
      var prev := LastTotals(TotalsAfter(totals, init), s[m].0);
      assert HasDetail(totals, s, key, m) <==> DetailsOf(prev, s[m].1, key) != 0;
      forall i: nat ensures HasDetail(totals, s, key, i) <==> HasDetail(totals, init, key, i) || (i == m && HasDetail(totals, s, key, m)) {
        assert i < m ==> s[..i] == init[..i];
      }
    }
  }

  /** Callback `n` has a usage block with a positive count `key`, or a breakdown under that name. */
  ghost predicate AddsBesidesGrowth(callbacks: seq<Callback>, key: string, n: nat) {
    && n < |callbacks|
    && (Count(callbacks[n].usageBlock, key) > 0
        || exists i: nat :: HasDetail(TotalsAfterRun(callbacks[..n]), callbacks[n].usageMetadata, key, i))
  }

  lemma {:induction false} NothingBesidesGrowthIff(callbacks: seq<Callback>, key: string)
    ensures AddedBesidesGrowth(callbacks, key) == 0 <==> forall n: nat :: !AddsBesidesGrowth(callbacks, key, n)
  {
    if callbacks != [] {
      var m := |callbacks| - 1;
      var init := callbacks[..m];
      NothingBesidesGrowthIff(init, key);
      var details := DetailsAdded(TotalsAfterRun(init), callbacks[m].usageMetadata, key);
      NoDetailsAddedIff(TotalsAfterRun(init), callbacks[m].usageMetadata, key);
      assert AddsBesidesGrowth(callbacks, key, m) <==> details + Count(callbacks[m].usageBlock, key) != 0;
      forall n: nat
        ensures AddsBesidesGrowth(callbacks, key, n) <==>
                AddsBesidesGrowth(init, key, n) || (n == m && AddsBesidesGrowth(callbacks, key, m))
      {
        assert n < m ==> callbacks[..n] == init[..n];
      }
    }
  }

  // ---------- When every token is counted once ----------

  /** What the metadata of a callback reports under the name of a core count: the growth of the totals. */
  function Growth(totals: map<string, Totals>, s: Snapshot, key: string): nat {
    if s == [] then 0
    else
      var init, (model, meta) := s[..|s| - 1], s[|s| - 1];
      var prev := LastTotals(TotalsAfter(totals, init), model);
      Growth(totals, init, key) + if Grew(prev, meta) then CoreDelta(prev, meta, key) else 0
  }

  lemma {:induction false} AddedIsGrowthAndDetails(totals: map<string, Totals>, s: Snapshot, key: string)
    ensures Added(totals, s, key) == Growth(totals, s, key) + DetailsAdded(totals, s, key)
  {
    if s != [] {
      AddedIsGrowthAndDetails(totals, s[..|s| - 1], key);
    }
  }

  /** What callback `n` reports, once: its metadata if that covers the count, else its usage block. */
  function ReportedAt(callbacks: seq<Callback>, key: string, n: nat): nat
    requires n < |callbacks|
  {
    var growth := Growth(TotalsAfterRun(callbacks[..n]), callbacks[n].usageMetadata, key);
    if growth > 0 then growth else Count(callbacks[n].usageBlock, key)
  }

  /** What the run reports, each response once. */
  function Reported(callbacks: seq<Callback>, key: string): nat {
    if callbacks == [] then 0
    else Reported(callbacks[..|callbacks| - 1], key) + ReportedAt(callbacks, key, |callbacks| - 1)
  }

  /** The metadata of callback `n` covers the count and its usage block repeats it, or a breakdown bears its name. */
  predicate CountsTwice(callbacks: seq<Callback>, key: string, n: nat) {
    && n < |callbacks|
    && var totals, c := TotalsAfterRun(callbacks[..n]), callbacks[n];
       || (Growth(totals, c.usageMetadata, key) > 0 && Count(c.usageBlock, key) > 0)
       || DetailsAdded(totals, c.usageMetadata, key) > 0
  }

  /**
   * For the core counts: what accumulates is what the responses report, each counted once, if and only
   * if no callback has a usage block that repeats what its metadata covers, nor a breakdown under the
   * name of the count. A usage block that is the only report of its response is no repetition.
   */
  lemma {:induction false} CountedOnceIff(callbacks: seq<Callback>, key: string)
    ensures Accumulated(callbacks, key) >= Reported(callbacks, key)
    ensures Accumulated(callbacks, key) == Reported(callbacks, key) <==> forall n: nat :: !CountsTwice(callbacks, key, n)
  {
    if callbacks != [] {
      var m := |callbacks| - 1;
      var init := callbacks[..m];
      CountedOnceIff(init, key);
      CountedOnceAt(callbacks, key);
      assert CountsTwice(callbacks, key, m) ==> exists n: nat :: CountsTwice(callbacks, key, n);
      forall n: nat ensures CountsTwice(callbacks, key, n) <==> CountsTwice(init, key, n) || (n == m && CountsTwice(callbacks, key, m)) {
        CountsTwiceInInit(callbacks, key, n);
      }
    }
  }

  /** The last callback of a run. */
  lemma CountedOnceAt(callbacks: seq<Callback>, key: string)
    requires callbacks != []
    ensures var m := |callbacks| - 1;
      var gained := Accumulated(callbacks, key) - Accumulated(callbacks[..m], key);
      gained >= ReportedAt(callbacks, key, m) && (gained == ReportedAt(callbacks, key, m) <==> !CountsTwice(callbacks, key, m))
  {
    var m := |callbacks| - 1;
    AddedIsGrowthAndDetails(TotalsAfterRun(callbacks[..m]), callbacks[m].usageMetadata, key);
  }

  lemma CountsTwiceInInit(callbacks: seq<Callback>, key: string, n: nat)
    requires callbacks != []
    ensures var m := |callbacks| - 1;
      CountsTwice(callbacks, key, n) <==> CountsTwice(callbacks[..m], key, n) || (n == m && CountsTwice(callbacks, key, m))
  {
    var m := |callbacks| - 1;
    if n < m {
      assert callbacks[..m][..n] == callbacks[..n];
    }
  }

  /** The usage blocks that are the only reports of their responses. */
  function OnlyInBlocks(callbacks: seq<Callback>, key: string): nat {
    if callbacks == [] then 0
    else
      var init, last := callbacks[..|callbacks| - 1], callbacks[|callbacks| - 1];
      OnlyInBlocks(init, key)
      + if Growth(TotalsAfterRun(init), last.usageMetadata, key) > 0 then 0 else Count(last.usageBlock, key)
  }

  lemma {:induction false} ReportedIsGrowthAndBlocks(callbacks: seq<Callback>, key: string)
    ensures Reported(callbacks, key) + AddedBesidesGrowth(callbacks, key) ==
            Accumulated(callbacks, key) + OnlyInBlocks(callbacks, key)
  {
    if callbacks != [] {
      var init, last := callbacks[..|callbacks| - 1], callbacks[|callbacks| - 1];
      ReportedIsGrowthAndBlocks(init, key);
      AddedIsGrowthAndDetails(TotalsAfterRun(init), last.usageMetadata, key);
    }
  }

  /** With non-decreasing totals, the run reports the latest totals and the blocks that are only reports. */
  lemma ReportedIsLatestAndBlocks(core: Core, callbacks: seq<Callback>)
    requires Cumulative(core, callbacks)
    ensures Reported(callbacks, core.Name()) == core.Sum(Latest(callbacks)) + OnlyInBlocks(callbacks, core.Name())
  {
    Telescopes(core, callbacks);
    ReportedIsGrowthAndBlocks(callbacks, core.Name());
  }

  /** A response with a usage block and no metadata: its tokens are counted, once. */
  lemma UsageBlockAloneIsCountedOnce()
    ensures var callbacks := [Callback([], map["input_tokens" := 7])];
      Accumulated(callbacks, "input_tokens") == Reported(callbacks, "input_tokens") == 7
      && !CountsTwice(callbacks, "input_tokens", 0)
  {
    var callbacks := [Callback([], map["input_tokens" := 7])];
    assert callbacks[..0] == [];
    assert Growth(map[], [], "input_tokens") == 0 && DetailsAdded(map[], [], "input_tokens") == 0;
    assert Accumulated(callbacks, "input_tokens") == Accumulated([], "input_tokens") + 7;
    assert Reported(callbacks, "input_tokens") == Reported([], "input_tokens") + 7;
  }

  /** One response with usage metadata and a usage block: its input tokens are counted twice. */
  lemma UsageBlockIsCountedAgain(model: string)
    ensures var callbacks := [Callback([(model, Meta(7, 2, None, []))], map["input_tokens" := 7])];
      && Accumulated(callbacks, "input_tokens") == 14 && Reported(callbacks, "input_tokens") == 7
      && CountsTwice(callbacks, "input_tokens", 0)
  {
    var s := [(model, Meta(7, 2, None, []))];
    var callbacks := [Callback(s, map["input_tokens" := 7])];
    assert s[..0] == [] && callbacks[..0] == [];
    assert Growth(map[], s, "input_tokens") == Growth(map[], s[..0], "input_tokens") + 7;
    assert DetailsAdded(map[], s, "input_tokens") == 0;
    AddedIsGrowthAndDetails(map[], s, "input_tokens");
    assert Accumulated(callbacks, "input_tokens") == Accumulated(callbacks[..0], "input_tokens") + 7 + 7;
    assert Reported(callbacks, "input_tokens") == Reported(callbacks[..0], "input_tokens") + 7;
  }

  /** A breakdown is never differenced: its count is the sum of what each callback reports. */
  lemma {:induction false} BreakdownsAreSummed(callbacks: seq<Callback>, key: string)
    requires key !in {"input_tokens", "output_tokens", "total_tokens"}
    ensures Accumulated(callbacks, key) == AddedBesidesGrowth(callbacks, key)
  {
    if callbacks != [] {
      var init, last := callbacks[..|callbacks| - 1], callbacks[|callbacks| - 1];
      BreakdownsAreSummed(init, key);
      OnlyDetails(TotalsAfterRun(init), last.usageMetadata, key);
    }
  }

  /** A positive breakdown goes under its name with "_tokens" behind it; any other is left out. */
  lemma OneBreakdown(name: string, val: int, key: string)
    ensures DetailSum([(name, val)], key) == if val > 0 && key == name + "_tokens" then val else 0
  {
    assert [(name, val)][..0] == [];
  }

  /** Breakdowns of one name, of input and output, add up. */
  lemma {:induction false} BreakdownsAddUp(a: seq<(string, int)>, b: seq<(string, int)>, key: string)
    ensures DetailSum(a + b, key) == DetailSum(a, key) + DetailSum(b, key)
  {
    if b == [] {
      assert a + b == a;
    } else {
      BreakdownsAddUp(a, b[..|b| - 1], key);
      assert (a + b)[..|a + b| - 1] == a + b[..|b| - 1];
    }
  }

  lemma {:induction false} OnlyDetails(totals: map<string, Totals>, s: Snapshot, key: string)
    requires key !in {"input_tokens", "output_tokens", "total_tokens"}
    ensures Added(totals, s, key) == DetailsAdded(totals, s, key)
  {
    if s != [] {
      OnlyDetails(totals, s[..|s| - 1], key);
    }
  }
}
