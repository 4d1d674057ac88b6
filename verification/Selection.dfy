/** The strategy registry and the pipeline that picks the best decision. */
module Selection {
  import opened Machine
  import opened Results
  import opened Sorting
  import opened Arb

  /** What the pipeline sees of a strategy. */
  datatype Strategy = Strategy(name: string, priority: u32)

  datatype Entry = Entry(strategy: Strategy, enabled: bool)

  function Priority(s: Strategy): int { s.priority }

  /** The enabled strategies in the order in which the map yields its names. */
  function Enabled(strategies: map<string, Entry>, names: seq<string>): seq<Strategy>
    requires forall name :: name in names ==> name in strategies
  {
    if names == [] then []
    else
      var before := Enabled(strategies, names[..|names| - 1]);
      var entry := strategies[names[|names| - 1]];
      if entry.enabled then before + [entry.strategy] else before
  }

  /** `names` lists every key once: an iteration order of the map. */
  ghost predicate Iterates(names: seq<string>, strategies: map<string, Entry>) {
    && (forall name :: name in names <==> name in strategies)
    && (forall i, j :: 0 <= i < j < |names| ==> names[i] != names[j])
  }

  class Registry {
    var strategies: map<string, Entry>

    constructor ()
      ensures strategies == map[] && Keyed(strategies)
    {
      strategies := map[];
    }

    method Register(strategy: Strategy)
      modifies this
      ensures strategies == old(strategies)[strategy.name := Entry(strategy, true)]
      ensures old(Keyed(strategies)) ==> Keyed(strategies)
    {
      strategies := strategies[strategy.name := Entry(strategy, true)];
    }

    method Unregister(name: string) returns (removed: bool)
      modifies this
      ensures removed <==> name in old(strategies)
      ensures strategies == old(strategies) - {name}
      ensures old(Keyed(strategies)) ==> Keyed(strategies)
    {
      removed := name in strategies;
      strategies := strategies - {name};
    }

    method SetEnabled(name: string, enabled: bool) returns (found: bool)
      modifies this
      ensures found <==> name in old(strategies)
      ensures strategies ==
                if found then old(strategies)[name := old(strategies)[name].(enabled := enabled)] else old(strategies)
      ensures old(Keyed(strategies)) ==> Keyed(strategies)
    {
      found := name in strategies;
      if found {
        strategies := strategies[name := strategies[name].(enabled := enabled)];
      }
    }

    /** Collects the enabled strategies in iteration order, then sorts them by priority. */
    method ActiveStrategies(names: seq<string>) returns (active: seq<Strategy>)
      requires Iterates(names, strategies)
      ensures active == SortBy(Enabled(strategies, names), Priority)
    {
      var collected: seq<Strategy> := [];
      for i := 0 to |names|
        invariant collected == Enabled(strategies, names[..i])
      {
        assert names[..i + 1][..i] == names[..i] && names[i] in names;
        if strategies[names[i]].enabled {
          collected := collected + [strategies[names[i]].strategy];
        }
      }
      assert names[..|names|] == names;
      active := SortBy(collected, Priority);
    }
  }

  /** Every entry is stored under its strategy's name. */
  ghost predicate Keyed(strategies: map<string, Entry>) {
    forall name :: name in strategies ==> strategies[name].strategy.name == name
  }

  /** The enabled strategies appear once each, whatever the iteration order. */
  lemma {:induction false} EnabledOnce(strategies: map<string, Entry>, names: seq<string>, s: Strategy)
    requires Keyed(strategies) && forall name :: name in names ==> name in strategies
    requires forall i, j :: 0 <= i < j < |names| ==> names[i] != names[j]
    ensures multiset(Enabled(strategies, names))[s] ==
              if s.name in names && strategies[s.name] == Entry(s, true) then 1 else 0
  {
    if names != [] {
      var n := |names| - 1;
      EnabledOnce(strategies, names[..n], s);
      assert names == names[..n] + [names[n]];
    }
  }

  /** The active strategies are exactly the enabled ones, once each, in order of priority. So
      when only the first `limit` are evaluated, none that is left out has a higher priority
      (a lower number) than one that is evaluated. */
  lemma ActiveIsSortedPermutation(strategies: map<string, Entry>, names: seq<string>, limit: nat)
    requires Keyed(strategies) && Iterates(names, strategies)
    ensures var active := SortBy(Enabled(strategies, names), Priority);
            && (forall s :: multiset(active)[s] ==
                  if s.name in strategies && strategies[s.name] == Entry(s, true) then 1 else 0)
            && (forall i, j :: 0 <= i < limit <= j < |active| ==> active[i].priority <= active[j].priority)
  {
    var enabled := Enabled(strategies, names);
    SortSorts(enabled, Priority);
    forall s: Strategy ensures multiset(enabled)[s] ==
      if s.name in strategies && strategies[s.name] == Entry(s, true) then 1 else 0
    {
      EnabledOnce(strategies, names, s);
    }
    var active := SortBy(enabled, Priority);
    forall i, j | 0 <= i < limit <= j < |active| ensures active[i].priority <= active[j].priority {
      assert Priority(active[i]) <= Priority(active[j]);
    }
  }

  // ----- the pipeline

  datatype PipelineConfig = PipelineConfig(minConfidence: nat, minProfitWei: u256, maxConcurrentEvaluations: nat)

  /** What evaluating a strategy came to. */
  datatype Evaluation = Fill(decision: FillDecision) | Skip | Failed | TimedOut

  function Decisions(results: seq<Evaluation>): seq<FillDecision> {
    if results == [] then []
    else
      var before := Decisions(results[..|results| - 1]);
      match results[|results| - 1]
      case Fill(decision) => before + [decision]
      case _ => before
  }

  function CompositeScore(d: FillDecision): u256 {
    var product := d.estimatedProfit * d.confidence;
    (if product <= U256_MAX then product else U256_MAX) / 100
  }

  predicate Passes(config: PipelineConfig, d: FillDecision) {
    d.confidence >= config.minConfidence && d.estimatedProfit >= config.minProfitWei
  }

  /** `max_by_key`: of equal maxima the last one. */
  function Best(candidates: seq<FillDecision>): Option<FillDecision> {
    if candidates == [] then None
    else
      var before, last := Best(candidates[..|candidates| - 1]), candidates[|candidates| - 1];
      if before.Some? && CompositeScore(before.value) > CompositeScore(last) then before else Some(last)
  }

  function PassesFilter(config: PipelineConfig): FillDecision -> bool {
    d => Passes(config, d)
  }

  function SelectBest(config: PipelineConfig, decisions: seq<FillDecision>): Option<FillDecision> {
    Best(Select(decisions, PassesFilter(config)))
  }

  /** The results of the strategies that are evaluated: the first `maxConcurrentEvaluations`. */
  function EvaluationResults(config: PipelineConfig, active: seq<Strategy>,
                             evaluate: Strategy -> Evaluation): seq<Evaluation> {
    seq(Min(|active|, config.maxConcurrentEvaluations), i requires 0 <= i < |active| => evaluate(active[i]))
  }

  function EvaluateOrder(config: PipelineConfig, active: seq<Strategy>,
                         evaluate: Strategy -> Evaluation): Option<FillDecision> {
    if active == [] then None else SelectBest(config, Decisions(EvaluationResults(config, active, evaluate)))
  }

  /** The collection loop over the results of the evaluated strategies. */
  method CollectDecisions(results: seq<Evaluation>) returns (decisions: seq<FillDecision>)
    ensures decisions == Decisions(results)
  {
    decisions := [];
    for i := 0 to |results|
      invariant decisions == Decisions(results[..i])
    {
      assert results[..i + 1][..i] == results[..i];
      match results[i]
      case Fill(decision) => decisions := decisions + [decision];
      case _ =>
    }
    assert results[..|results|] == results;
  }

  function TrueScore(d: FillDecision): nat {
    d.estimatedProfit * d.confidence
  }

  /** A strictly larger score means a strictly larger true product, truncation and saturation
      notwithstanding; and an unsaturated product at least 100 larger means a larger score. */
  lemma ScoreOrdersProducts(a: FillDecision, b: FillDecision)
    ensures CompositeScore(a) > CompositeScore(b) ==> TrueScore(a) > TrueScore(b)
    ensures TrueScore(a) >= TrueScore(b) + 100 && TrueScore(a) <= U256_MAX ==> CompositeScore(a) > CompositeScore(b)
  {
    if TrueScore(a) <= TrueScore(b) {
      DivMonotone(Min(TrueScore(a), U256_MAX), Min(TrueScore(b), U256_MAX), 100);
    }
  }

  /** Decision `i` passes, no passing decision scores higher, and no later one as high. */
  ghost predicate IsLastMaximum(config: PipelineConfig, decisions: seq<FillDecision>, i: nat) {
    && i < |decisions| && Passes(config, decisions[i])
    && (forall j :: 0 <= j < |decisions| && Passes(config, decisions[j]) ==>
          CompositeScore(decisions[j]) <= CompositeScore(decisions[i]))
    && (forall j :: i < j < |decisions| && Passes(config, decisions[j]) ==>
          CompositeScore(decisions[j]) < CompositeScore(decisions[i]))
  }

  lemma {:induction false} SelectConcat(a: seq<FillDecision>, b: seq<FillDecision>, p: FillDecision -> bool)
    ensures Select(a + b, p) == Select(a, p) + Select(b, p)
  {
    if a == [] {
      assert a + b == b;
    } else {
      var head := if p(a[0]) then [a[0]] else [];
      SelectConcat(a[1..], b, p);
      Reassociate(head, Select(a[1..], p), Select(b, p));
      assert (a + b)[0] == a[0] && (a + b)[1..] == a[1..] + b;
    }
  }

  lemma Reassociate(a: seq<FillDecision>, b: seq<FillDecision>, c: seq<FillDecision>)
    ensures a + (b + c) == (a + b) + c
  {
  }

  /** Adding one decision at the end replaces the choice unless the old one scores higher. */
  lemma SelectBestSnoc(config: PipelineConfig, decisions: seq<FillDecision>)
    requires decisions != []
    ensures var init, last := decisions[..|decisions| - 1], decisions[|decisions| - 1];
            var before := SelectBest(config, init);
            SelectBest(config, decisions) ==
              if !Passes(config, last) || (before.Some? && CompositeScore(before.value) > CompositeScore(last))
              then before else Some(last)
  {
    var init, last := decisions[..|decisions| - 1], decisions[|decisions| - 1];
    var p := PassesFilter(config);
    SelectConcat(init, [last], p);
    assert decisions == init + [last];
    assert Select([last], p) == if p(last) then [last] else [];
    if p(last) {
      var candidates := Select(init, p) + [last];
      assert candidates[..|candidates| - 1] == Select(init, p);
    } else {
      assert Select(init, p) + [] == Select(init, p);
    }
  }

  lemma FirstMaximum(config: PipelineConfig, decisions: seq<FillDecision>)
    requires decisions != [] && Passes(config, decisions[|decisions| - 1])
    requires forall i :: 0 <= i < |decisions| - 1 ==> !Passes(config, decisions[i])
    ensures IsLastMaximum(config, decisions, |decisions| - 1)
  {
  }

  lemma NextMaximum(config: PipelineConfig, decisions: seq<FillDecision>, i: nat)
    requires decisions != [] && IsLastMaximum(config, decisions[..|decisions| - 1], i)
    ensures var n := |decisions| - 1;
            var last := decisions[n];
            if !Passes(config, last) || CompositeScore(decisions[i]) > CompositeScore(last)
            then IsLastMaximum(config, decisions, i) else IsLastMaximum(config, decisions, n)
  {
    var n := |decisions| - 1;
    forall j | 0 <= j < n ensures decisions[..n][j] == decisions[j] {
    }
  }

  /** Nothing is selected exactly when no decision passes both thresholds; otherwise the last of
      the highest-scoring passing decisions is. */
  lemma {:induction false} SelectBestIsLastMaximum(config: PipelineConfig, decisions: seq<FillDecision>)
    ensures SelectBest(config, decisions).None? <==> forall i :: 0 <= i < |decisions| ==> !Passes(config, decisions[i])
    ensures SelectBest(config, decisions).Some? ==>
              exists i: nat :: IsLastMaximum(config, decisions, i)
                               && SelectBest(config, decisions) == Some(decisions[i])
  {
    if decisions != [] {
      var n := |decisions| - 1;
      var init := decisions[..n];
      forall i | 0 <= i < n ensures init[i] == decisions[i] {
      }
      SelectBestIsLastMaximum(config, init);
      SelectBestSnoc(config, decisions);
      if SelectBest(config, init).Some? {
        var i: nat :| IsLastMaximum(config, init, i) && SelectBest(config, init) == Some(init[i]);
        NextMaximum(config, decisions, i);
      } else if Passes(config, decisions[n]) {
        FirstMaximum(config, decisions);
      }
    }
  }

  lemma {:induction false} DecisionsAreFills(results: seq<Evaluation>, d: FillDecision)
    ensures d in Decisions(results) <==> Fill(d) in results
  {
    if results != [] {
      var n := |results| - 1;
      DecisionsAreFills(results[..n], d);
      assert results == results[..n] + [results[n]];
    }
  }

  /** End to end: the order is filled exactly when some evaluated strategy recommends a passing
      fill. The fill chosen is one of those, and no evaluated passing one has a true product
      of profit and confidence larger by 100 or more, unless the chosen product saturates. */
  lemma EvaluateOrderIsOptimal(config: PipelineConfig, active: seq<Strategy>, evaluate: Strategy -> Evaluation)
    ensures var best, results := EvaluateOrder(config, active, evaluate), EvaluationResults(config, active, evaluate);
            && (best.Some? <==> exists d :: Fill(d) in results && Passes(config, d))
            && (best.Some? ==>
                  && Fill(best.value) in results && Passes(config, best.value)
                  && forall d :: Fill(d) in results && Passes(config, d) ==>
                       && CompositeScore(d) <= CompositeScore(best.value)
                       && (TrueScore(d) < TrueScore(best.value) + 100 || TrueScore(d) > U256_MAX))
  {
    var best, results := EvaluateOrder(config, active, evaluate), EvaluationResults(config, active, evaluate);
    var decisions := Decisions(results);
    if active != [] {
      SelectBestIsLastMaximum(config, decisions);
      forall d ensures d in decisions <==> Fill(d) in results {
        DecisionsAreFills(results, d);
      }
      if best.Some? {
        var i: nat :| IsLastMaximum(config, decisions, i) && best == Some(decisions[i]);
        assert best.value in decisions;
        forall d | Fill(d) in results && Passes(config, d)
          ensures CompositeScore(d) <= CompositeScore(best.value)
          ensures TrueScore(d) < TrueScore(best.value) + 100 || TrueScore(d) > U256_MAX
        {
          assert d in decisions;
          ScoreOrdersProducts(d, best.value);
        }
      }
    }
  }

  // ----- who is consulted, and how

  /** Exactly the first strategies are consulted, up to the limit, each once and in order. */
  lemma ConsultsTheFirst(config: PipelineConfig, active: seq<Strategy>, evaluate: Strategy -> Evaluation)
    ensures var results := EvaluationResults(config, active, evaluate);
            && (|active| <= config.maxConcurrentEvaluations ==> |results| == |active|)
            && (|active| >= config.maxConcurrentEvaluations ==> |results| == config.maxConcurrentEvaluations)
            && forall i :: 0 <= i < |results| ==> results[i] == evaluate(active[i])
  {
  }

  /** Only they matter: what the others would say changes nothing. */
  lemma OthersDoNotMatter(config: PipelineConfig, active: seq<Strategy>, a: Strategy -> Evaluation,
                          b: Strategy -> Evaluation)
    requires forall i :: 0 <= i < |active| && i < config.maxConcurrentEvaluations ==> a(active[i]) == b(active[i])
    ensures EvaluateOrder(config, active, a) == EvaluateOrder(config, active, b)
  {
    assert EvaluationResults(config, active, a) == EvaluationResults(config, active, b);
  }

  lemma EnabledIsActive(strategies: map<string, Entry>, names: seq<string>, s: Strategy) returns (j: nat)
    requires Keyed(strategies) && Iterates(names, strategies)
    requires s.name in strategies && strategies[s.name] == Entry(s, true)
    ensures var active := SortBy(Enabled(strategies, names), Priority); j < |active| && active[j] == s
  {
    var active := SortBy(Enabled(strategies, names), Priority);
    SortSorts(Enabled(strategies, names), Priority);
    EnabledOnce(strategies, names, s);
    assert s in multiset(active);
    assert s in active;
    j :| 0 <= j < |active| && active[j] == s;
  }

  /** And no enabled strategy has a higher priority (a lower number) than a consulted one without being
      consulted itself. */
  lemma NoHigherPriorityLeftOut(strategies: map<string, Entry>, names: seq<string>, config: PipelineConfig,
                                s: Strategy, i: nat)
    requires Keyed(strategies) && Iterates(names, strategies)
    requires s.name in strategies && strategies[s.name] == Entry(s, true)
    ensures var active := SortBy(Enabled(strategies, names), Priority);
            i < |active| && i < config.maxConcurrentEvaluations && s.priority < active[i].priority ==>
              exists j :: 0 <= j < i && active[j] == s
  {
    PrioritySorted(Enabled(strategies, names));
    var j := EnabledIsActive(strategies, names, s);
  }

  lemma PrioritySorted(enabled: seq<Strategy>)
    ensures var active := SortBy(enabled, Priority);
            forall i, j :: 0 <= i < j < |active| ==> active[i].priority <= active[j].priority
  {
    SortSorts(enabled, Priority);
    var active := SortBy(enabled, Priority);
    forall i, j | 0 <= i < j < |active| ensures active[i].priority <= active[j].priority {
      assert Priority(active[i]) <= Priority(active[j]);
    }
  }

  /** A decision passes with at least the configured confidence and profit, and its score is a hundredth,
      rounded down, of the product of profit and confidence, or of the largest number if that is less. */
  lemma ScoreIs(config: PipelineConfig, d: FillDecision)
    ensures Passes(config, d) <==> d.confidence >= config.minConfidence && d.estimatedProfit >= config.minProfitWei
    ensures var product := if d.estimatedProfit * d.confidence <= U256_MAX then d.estimatedProfit * d.confidence
                           else U256_MAX;
            CompositeScore(d) * 100 <= product < CompositeScore(d) * 100 + 100
  {
  }

  /** The positions of the results that recommend a fill. */
  function FillsAt(results: seq<Evaluation>): seq<nat> {
    if results == [] then []
    else
      var n := |results| - 1;
      FillsAt(results[..n]) + if results[n].Fill? then [n] else []
  }

  /** These decisions are, in order, those of exactly the results at these positions. */
  ghost predicate AreFillsAt(results: seq<Evaluation>, decisions: seq<FillDecision>, at: seq<nat>) {
    && |decisions| == |at|
    && (forall i :: 0 <= i < |at| ==> at[i] < |results| && results[at[i]] == Fill(decisions[i]))
    && (forall i, j :: 0 <= i < j < |at| ==> at[i] < at[j])
    && (forall k :: 0 <= k < |results| ==> (k in at <==> results[k].Fill?))
  }

  lemma FillsNext(results: seq<Evaluation>, decisions: seq<FillDecision>, at: seq<nat>)
    requires results != [] && AreFillsAt(results[..|results| - 1], decisions, at)
    ensures var n := |results| - 1;
            if results[n].Fill? then AreFillsAt(results, decisions + [results[n].decision], at + [n])
            else AreFillsAt(results, decisions, at)
  {
    var n := |results| - 1;
    forall k | 0 <= k < n ensures results[..n][k] == results[k] {
    }
  }

  /** The decisions are, in order, those of exactly the results that recommend a fill. */
  lemma {:induction false} DecisionsInOrder(results: seq<Evaluation>)
    ensures AreFillsAt(results, Decisions(results), FillsAt(results))
  {
    if results != [] {
      var n := |results| - 1;
      DecisionsInOrder(results[..n]);
      FillsNext(results, Decisions(results[..n]), FillsAt(results[..n]));
    }
  }
}
