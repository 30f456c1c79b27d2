/** From clusters to contributed observations: the confidence of a cluster, and what the observation pass
    contributes and discards. */
module ObservationPass {
  import opened JsText
  import opened Numbers
  import opened Clustering

  const MS_PER_DAY := 86400000.0

  // ---------------------------------------------------------------------------
  // The confidence of a cluster
  // ---------------------------------------------------------------------------

  /** The first of the members with the greatest confidence: the head of a stable descending sort. */
  function Strongest(members: seq<Stamped>): Stamped
    requires members != []
  {
    var n := |members| - 1;
    if n == 0 then members[0]
    else
      var best := Strongest(members[..n]);
      if members[n].observation.confidence > best.observation.confidence then members[n] else best
  }

  lemma {:induction false} StrongestIsFirstMaximum(members: seq<Stamped>) returns (k: nat)
    requires members != []
    ensures k < |members| && members[k] == Strongest(members)
    ensures forall j | 0 <= j < |members| :: members[j].observation.confidence <= members[k].observation.confidence
    ensures forall j | 0 <= j < k :: members[j].observation.confidence < members[k].observation.confidence
  {
    var n := |members| - 1;
    if n == 0 {
      k := 0;
    } else {
      k := StrongestIsFirstMaximum(members[..n]);
      if members[n].observation.confidence > members[k].observation.confidence {
        k := n;
      }
    }
  }

  function AgeDays(item: Stamped, now: real): real {
    (now - item.recordedAt) / MS_PER_DAY
  }

  /** Linear decay to 0 at twice `decayDays`; dividing by a `decayDays` of 0 gives 0 as well. */
  function DecayFactor(ageDays: real, decayDays: real): real {
    if decayDays == 0.0 then 0.0 else Max(0.0, 1.0 - (ageDays - decayDays) / decayDays)
  }

  function Scaled(x: real, f: real): real {
    x * f
  }

  function Merged(confidence: real, size: nat, cap: real): real
    requires size > 0
  {
    Min(confidence + Min((size - 1) as real * 0.02, 0.1), cap)
  }

  function Decayed(confidence: real, ageDays: real, decayDays: real): real {
    if ageDays > decayDays then Scaled(confidence, DecayFactor(ageDays, decayDays)) else confidence
  }

  function Reinforced(confidence: real, reinforcements: int, cap: real): real {
    if reinforcements > 0 then Min(confidence + Min(reinforcements as real * 0.01, 0.05), cap) else confidence
  }

  /** The confidence of a cluster of `size` members whose strongest has `confidence`, `ageDays` and
      `reinforcements`: boosted by the merge, capped, decayed, boosted by reinforcement, capped again. */
  function Blend(confidence: real, size: nat, ageDays: real, reinforcements: int, config: Config): real
    requires size > 0
  {
    Reinforced(Decayed(Merged(confidence, size, config.Cap()), ageDays, config.Decay()), reinforcements, config.Cap())
  }

  /** The confidence of one observation on its own. */
  function EffectiveConfidence(o: Observation, ageDays: real, config: Config): real {
    if o.authored then 1.0
    else
      var capped := Min(o.confidence, config.Cap());
      if ageDays <= config.Decay() then capped else Scaled(capped, DecayFactor(ageDays, config.Decay()))
  }

  lemma ScaledLaws(x: real, y: real, f: real, g: real)
    requires 0.0 <= x <= y && 0.0 <= f <= g
    ensures 0.0 <= Scaled(x, f) <= Scaled(x, g) <= Scaled(y, g)
    ensures Scaled(x, 1.0) == x && Scaled(0.0, f) == 0.0
  {
    assert x * (g - f) >= 0.0 && (y - x) * g >= 0.0;
  }

  lemma FactorRange(ageDays: real, decayDays: real)
    requires decayDays >= 0.0 && ageDays >= decayDays
    ensures 0.0 <= DecayFactor(ageDays, decayDays) <= 1.0
  {
    if decayDays > 0.0 {
      QuotientGrows(0.0, ageDays - decayDays, decayDays);
    }
  }

  ghost predicate StaysWithinCap(config: Config) {
    forall c, n: nat, age, r | c >= 0.0 && n > 0 :: 0.0 <= Blend(c, n, age, r, config) <= config.Cap()
  }

  lemma BlendWithinCap(c: real, n: nat, age: real, r: int, config: Config)
    requires c >= 0.0 && n > 0
    requires config.Cap() == 0.0 || (config.Cap() > 0.0 && config.Decay() >= 0.0)
    ensures 0.0 <= Blend(c, n, age, r, config) <= config.Cap()
  {
    var cap, d := config.Cap(), config.Decay();
    var merged := Merged(c, n, cap);
    assert 0.0 <= merged <= cap;
    hide Merged, DecayFactor, Scaled;
    if age > d {
      if cap > 0.0 {
        FactorRange(age, d);
        ScaledLaws(merged, cap, DecayFactor(age, d), 1.0);
        ScaledLaws(cap, cap, DecayFactor(age, d), 1.0);
      } else {
        NothingScaled(DecayFactor(age, d));
      }
    }
  }

  lemma NothingScaled(f: real)
    ensures Scaled(0.0, f) == 0.0
  {
  }

  lemma DecayTurnsIntoGrowth(cap: real, decayDays: real)
    requires cap > 0.0 && decayDays < 0.0
    ensures Scaled(cap, DecayFactor(0.0, decayDays)) > cap
  {
    SelfQuotient(-decayDays);
    assert -decayDays / decayDays == -1.0;
    assert (0.0 - decayDays) / decayDays == -1.0;
    assert cap * 2.0 > cap;
  }

  /** Every cluster of observations with confidences of at least 0 stays between 0 and the cap exactly when the
      cap is 0, or positive and the decay period is not negative. */
  lemma WithinCapLaw(config: Config)
    ensures StaysWithinCap(config)
            <==> config.Cap() == 0.0 || (config.Cap() > 0.0 && config.Decay() >= 0.0)
  {
    var cap := config.Cap();
    if cap == 0.0 || (cap > 0.0 && config.Decay() >= 0.0) {
      forall c, n: nat, age, r | c >= 0.0 && n > 0
        ensures 0.0 <= Blend(c, n, age, r, config) <= cap
      {
        BlendWithinCap(c, n, age, r, config);
      }
    } else if cap < 0.0 {
      var b := Blend(0.0, 1, 0.0, 0, config);
      assert !(0.0 <= b <= cap);
    } else {
      DecayTurnsIntoGrowth(cap, config.Decay());
      assert Blend(cap, 1, 0.0, 0, config) == Scaled(cap, DecayFactor(0.0, config.Decay()));
    }
  }

  /** Age never raises confidence. */
  lemma OlderIsWeaker(c: real, n: nat, young: real, aged: real, r: int, config: Config)
    requires c >= 0.0 && n > 0 && young <= aged && config.Cap() >= 0.0 && config.Decay() >= 0.0
    ensures Blend(c, n, aged, r, config) <= Blend(c, n, young, r, config)
  {
    hide Merged, Decayed;
    MergedIsPositive(c, n, config.Cap());
    DecayedShrinks(Merged(c, n, config.Cap()), young, aged, config.Decay());
  }

  lemma MergedIsPositive(c: real, n: nat, cap: real)
    requires c >= 0.0 && n > 0 && cap >= 0.0
    ensures Merged(c, n, cap) >= 0.0
  {
  }

  lemma DecayedShrinks(c: real, young: real, aged: real, decayDays: real)
    requires c >= 0.0 && young <= aged && decayDays >= 0.0
    ensures Decayed(c, aged, decayDays) <= Decayed(c, young, decayDays)
  {
    hide DecayFactor, Scaled;
    if aged > decayDays {
      var f := DecayFactor(aged, decayDays);
      FactorRange(aged, decayDays);
      if young > decayDays {
        FactorShrinks(young, aged, decayDays);
        ScaledLaws(c, c, f, DecayFactor(young, decayDays));
      } else {
        ScaledLaws(c, c, f, 1.0);
      }
    }
  }

  lemma FactorShrinks(young: real, aged: real, decayDays: real)
    requires young <= aged && decayDays >= 0.0
    ensures DecayFactor(aged, decayDays) <= DecayFactor(young, decayDays)
  {
    if decayDays > 0.0 {
      QuotientGrows(young - decayDays, aged - decayDays, decayDays);
    }
  }

  /** More members and more reinforcements never lower the confidence, and from the sixth member and the fifth
      reinforcement on they no longer raise it. */
  lemma SupportSaturates(c: real, n: nat, m: nat, age: real, r: int, t: int, config: Config)
    requires 0 < n <= m && r <= t
    requires config.Cap() >= 0.0 && config.Decay() >= 0.0 && c >= 0.0
    ensures Blend(c, n, age, r, config) <= Blend(c, m, age, t, config)
    ensures n >= 6 && r >= 5 ==> Blend(c, n, age, r, config) == Blend(c, m, age, t, config)
  {
    var few, many := Merged(c, n, config.Cap()), Merged(c, m, config.Cap());
    assert few <= many <= config.Cap() && (n >= 6 ==> few == many);
    assert few >= 0.0;
    hide Merged, Decayed;
    DecayKeepsOrder(few, many, age, config.Decay(), config.Cap());
  }

  lemma DecayKeepsOrder(few: real, many: real, age: real, decayDays: real, cap: real)
    requires 0.0 <= few <= many <= cap && decayDays >= 0.0
    ensures 0.0 <= Decayed(few, age, decayDays) <= Decayed(many, age, decayDays) <= cap
  {
    hide DecayFactor, Scaled;
    if age > decayDays {
      var f := DecayFactor(age, decayDays);
      FactorRange(age, decayDays);
      ScaledLaws(few, many, f, f);
      ScaledLaws(many, cap, f, 1.0);
      ScaledLaws(cap, cap, f, 1.0);
    }
  }

  /** What support adds to a young observation below the cap: 0.02 for each further member up to five of them, and
      0.01 for each reinforcement up to five. */
  lemma SupportAdds(c: real, n: nat, age: real, r: int, config: Config)
    requires n > 0 && age <= config.Decay()
    requires c + 0.15 <= config.Cap()
    ensures Blend(c, n, age, r, config)
         == c + (if n <= 6 then n - 1 else 5) as real * 0.02
            + (if r <= 0 then 0 else if r <= 5 then r else 5) as real * 0.01
  {
  }

  /** From the decay period on, the confidence of an observation never reinforced falls linearly, to nothing at twice
      the period. */
  lemma DecayIsLinear(c: real, n: nat, age: real, config: Config)
    requires n > 0 && config.Decay() > 0.0 && age >= config.Decay()
    ensures var d := config.Decay();
            && (age <= 2.0 * d ==> Blend(c, n, age, 0, config) * d == Blend(c, n, d, 0, config) * (2.0 * d - age))
            && (age >= 2.0 * d ==> Blend(c, n, age, 0, config) == 0.0)
  {
    var d, x := config.Decay(), Merged(c, n, config.Cap());
    hide Merged;
    if age > d {
      FactorIsLinear(age, d);
      var f := DecayFactor(age, d);
      hide DecayFactor;
      if age <= 2.0 * d {
        Reorder(x, f, d);
        assert f * d == 2.0 * d - age;
      }
    }
  }

  lemma FactorIsLinear(age: real, d: real)
    requires d > 0.0
    ensures age <= 2.0 * d ==> DecayFactor(age, d) * d == 2.0 * d - age
    ensures age >= 2.0 * d ==> DecayFactor(age, d) == 0.0
  {
    var q := (age - d) / d;
    TimesQuotient(age - d, d);
    if age <= 2.0 * d {
      QuotientGrows(age - d, d, d);
      SelfQuotient(d);
      assert q <= 1.0;
      assert (1.0 - q) * d == d - q * d;
    } else {
      QuotientGrows(d, age - d, d);
      SelfQuotient(d);
    }
  }

  lemma Reorder(x: real, f: real, d: real)
    ensures x * f * d == x * (f * d)
  {
  }

  // ---------------------------------------------------------------------------
  // Clustering a list of observations
  // ---------------------------------------------------------------------------

  function Authored(items: seq<Stamped>): seq<Stamped> {
    if items == [] then []
    else
      var last := items[|items| - 1];
      Authored(items[..|items| - 1]) + if last.observation.authored then [last] else []
  }

  function Inferred(items: seq<Stamped>): seq<Stamped> {
    if items == [] then []
    else
      var last := items[|items| - 1];
      Inferred(items[..|items| - 1]) + if last.observation.authored then [] else [last]
  }

  function AuthoredResult(item: Stamped): ClusterResult {
    ClusterResult(item.observation.(confidence := 1.0), 1, false)
  }

  function Result(members: seq<Stamped>, now: real, config: Config): ClusterResult
    requires members != []
  {
    var top := Strongest(members);
    var age := AgeDays(top, now);
    ClusterResult(top.observation.(confidence := Blend(top.observation.confidence, |members|, age,
                                                       top.reinforcementCount.GetOr(0), config)),
                  |members|, age > config.Decay())
  }

  /** The result of a cluster is its first member of greatest confidence, changed in its confidence only, which
      depends on that member's age in days of 86400000 ms, and marked as decayed exactly if that age exceeds the
      decay period. */
  lemma ResultLaw(members: seq<Stamped>, now: real, config: Config) returns (k: nat)
    requires members != []
    ensures k < |members|
    ensures forall j | 0 <= j < |members| :: members[j].observation.confidence <= members[k].observation.confidence
    ensures forall j | 0 <= j < k :: members[j].observation.confidence < members[k].observation.confidence
    ensures var r := Result(members, now, config);
            var top := members[k].observation;
            && r.clusterSize == |members| && r.representative == top.(confidence := r.representative.confidence)
            && (r.decayed <==> now > members[k].recordedAt + config.Decay() * 86400000.0)
            && (members[k].reinforcementCount.None? && !r.decayed ==>
                  r.representative.confidence == Blend(top.confidence, |members|, config.Decay(), 0, config))
  {
    k := StrongestIsFirstMaximum(members);
  }

  lemma {:induction false} NoClusterIsEmpty(items: seq<Stamped>, threshold: real)
    ensures forall k | 0 <= k < |Build(items, threshold)| :: Build(items, threshold)[k].members != []
  {
    hide Jaccard, FirstSimilar;
    ClusterIsItsShare(items, threshold, |items|);
    assert items[..|items|] == items;
  }

  /** What the clusterer returns: the authored observations, then one result for each cluster of the others. */
  ghost predicate Clustered(items: seq<Stamped>, now: real, config: Config, results: seq<ClusterResult>) {
    var authored := Authored(items);
    var clusters := MembersOf(Build(Inferred(items), config.Threshold()));
    && |results| == |authored| + |clusters|
    && (forall i | 0 <= i < |authored| :: results[i] == AuthoredResult(authored[i]))
    && (forall k | 0 <= k < |clusters| ::
          clusters[k] != [] && results[|authored| + k] == Result(clusters[k], now, config))
  }

  method ClusterObservations(items: seq<Stamped>, now: real, config: Config) returns (results: seq<ClusterResult>)
    ensures Clustered(items, now, config, results)
  {
    hide Build, Strongest, Blend, Authored, Inferred, Result, AuthoredResult;
    var authored, inferred := Partition(items);
    results := [];
    for i := 0 to |authored|
      invariant |results| == i && forall j | 0 <= j < i :: results[j] == AuthoredResult(authored[j])
    {
      results := results + [AuthoredResult(authored[i])];
    }
    var clusters := BuildClusters(inferred, config.Threshold());
    NoClusterIsEmpty(inferred, config.Threshold());
    for k := 0 to |clusters|
      invariant |results| == |authored| + k
      invariant forall j | 0 <= j < |authored| :: results[j] == AuthoredResult(authored[j])
      invariant forall j | 0 <= j < k :: results[|authored| + j] == Result(clusters[j], now, config)
    {
      var result := ResultOf(clusters[k], now, config);
      results := results + [result];
    }
  }

  /** The first loop: authored observations bypass the clustering. */
  method Partition(items: seq<Stamped>) returns (authored: seq<Stamped>, inferred: seq<Stamped>)
    ensures authored == Authored(items) && inferred == Inferred(items)
  {
    authored, inferred := [], [];
    for i := 0 to |items|
      invariant authored == Authored(items[..i]) && inferred == Inferred(items[..i])
    {
      assert items[..i + 1][..i] == items[..i];
      if items[i].observation.authored {
        authored := authored + [items[i]];
      } else {
        inferred := inferred + [items[i]];
      }
    }
    assert items[..|items|] == items;
  }

  /** The body of the loop over the clusters, step by step. */
  method ResultOf(cluster: seq<Stamped>, now: real, config: Config) returns (result: ClusterResult)
    requires cluster != []
    ensures result == Result(cluster, now, config)
  {
    var representative := Strongest(cluster);
    var mergeBoost := Min((|cluster| - 1) as real * 0.02, 0.1);
    var confidence := Min(representative.observation.confidence + mergeBoost, config.Cap());
    var ageDays := AgeDays(representative, now);
    var decayed := ageDays > config.Decay();
    if decayed {
      confidence := Scaled(confidence, DecayFactor(ageDays, config.Decay()));
    }
    var reinforcements := representative.reinforcementCount.GetOr(0);
    if reinforcements > 0 {
      confidence := Min(confidence + Min(reinforcements as real * 0.01, 0.05), config.Cap());
    }
    result := ClusterResult(representative.observation.(confidence := confidence), |cluster|, decayed);
  }

  function TotalSize(results: seq<ClusterResult>): nat {
    if results == [] then 0 else TotalSize(results[..|results| - 1]) + results[|results| - 1].clusterSize
  }

  lemma {:induction false} TotalOfOnes(results: seq<ClusterResult>)
    requires forall i | 0 <= i < |results| :: results[i].clusterSize == 1
    ensures TotalSize(results) == |results|
  {
    if results != [] { TotalOfOnes(results[..|results| - 1]); }
  }

  lemma {:induction false} PartitionSizes(items: seq<Stamped>)
    ensures |Authored(items)| + |Inferred(items)| == |items|
    ensures forall x | x in Authored(items) :: x in items && x.observation.authored
    ensures forall x | x in Inferred(items) :: x in items && !x.observation.authored
  {
    if items != [] { PartitionSizes(items[..|items| - 1]); }
  }

  /** The positions `at` are ascending and below `n`. */
  ghost predicate Ascends(at: seq<nat>, n: nat) {
    && (forall i | 0 <= i < |at| :: at[i] < n)
    && forall i, j | 0 <= i < j < |at| :: at[i] < at[j]
  }

  /** `picked` are the elements of `all` at the positions `at`, in order. */
  ghost predicate Picked<T>(all: seq<T>, at: seq<nat>, picked: seq<T>) {
    && Ascends(at, |all|) && |at| == |picked|
    && forall i | 0 <= i < |at| :: picked[i] == all[at[i]]
  }

  lemma PickedSnoc<T>(init: seq<T>, last: T, at: seq<nat>, picked: seq<T>)
    requires Picked(init, at, picked)
    ensures Picked(init + [last], at, picked)
    ensures Picked(init + [last], at + [|init|], picked + [last])
  {
  }

  /** The partition keeps the order and loses nothing: the authored ones are exactly those at the positions `at`. */
  lemma {:induction false} PartitionLaw(items: seq<Stamped>) returns (at: seq<nat>)
    ensures Picked(items, at, Authored(items))
    ensures forall k | 0 <= k < |items| :: k in at <==> items[k].observation.authored
    ensures multiset(Authored(items)) + multiset(Inferred(items)) == multiset(items)
    decreases |items|
  {
    PartitionConserves(items);
    at := AuthoredAre(items);
  }

  lemma {:induction false} AuthoredAre(items: seq<Stamped>) returns (at: seq<nat>)
    ensures Picked(items, at, Authored(items))
    ensures forall k | 0 <= k < |items| :: k in at <==> items[k].observation.authored
    decreases |items|
  {
    at := [];
    if items != [] {
      hide Picked;
      var n := |items| - 1;
      at := AuthoredAre(items[..n]);
      assert items == items[..n] + [items[n]];
      PickedSnoc(items[..n], items[n], at, Authored(items[..n]));
      PickedBounds(items[..n], at, Authored(items[..n]));
      forall k | 0 <= k < n
        ensures k in at <==> items[k].observation.authored
      {
        assert items[..n][k] == items[k];
      }
      if items[n].observation.authored {
        at := at + [n];
      } else {
        assert Authored(items) == Authored(items[..n]);
      }
    }
  }

  lemma PickedBounds<T>(all: seq<T>, at: seq<nat>, picked: seq<T>)
    requires Picked(all, at, picked)
    ensures forall k | k in at :: k < |all|
  {
  }

  lemma OneMoreSorted(init: seq<Stamped>, last: Stamped)
    ensures multiset(Authored(init + [last])) + multiset(Inferred(init + [last]))
         == multiset(Authored(init)) + multiset(Inferred(init)) + multiset{last}
  {
    var all := init + [last];
    assert all[..|init|] == init;
    var authored, inferred := Authored(init), Inferred(init);
    assert if last.observation.authored then Authored(all) == authored + [last] && Inferred(all) == inferred + []
           else Authored(all) == authored + [] && Inferred(all) == inferred + [last];
  }

  ghost predicate NothingLost(items: seq<Stamped>) {
    multiset(Authored(items)) + multiset(Inferred(items)) == multiset(items)
  }

  lemma NothingLostSnoc(init: seq<Stamped>, last: Stamped)
    requires NothingLost(init)
    ensures NothingLost(init + [last])
  {
    OneMoreSorted(init, last);
    hide Authored, Inferred;
    assert multiset(init + [last]) == multiset(init) + multiset{last};
  }

  lemma {:induction false} PartitionConserves(items: seq<Stamped>)
    ensures NothingLost(items)
    decreases |items|
  {
    if items != [] {
      hide NothingLost;
      var n := |items| - 1;
      PartitionConserves(items[..n]);
      NothingLostSnoc(items[..n], items[n]);
      assert items[..n] + [items[n]] == items;
    }
  }

  lemma {:induction false} TotalOfClusters(results: seq<ClusterResult>, clusters: seq<seq<Stamped>>, skip: nat)
    requires |results| == skip + |clusters|
    requires forall k | 0 <= k < |clusters| :: results[skip + k].clusterSize == |clusters[k]|
    ensures TotalSize(results) == TotalSize(results[..skip]) + |Concat(clusters)|
    decreases |clusters|
  {
    if clusters == [] {
      assert results[..skip] == results;
    } else {
      var n := |clusters| - 1;
      TotalOfClusters(results[..skip + n], clusters[..n], skip);
      assert results[..skip + n][..skip] == results[..skip];
      ConcatAppend(clusters[..n], clusters[n]);
      assert clusters[..n] + [clusters[n]] == clusters;
    }
  }

  /** The sizes of the clusters add up to the number of observations. */
  lemma SizesSumToInput(items: seq<Stamped>, now: real, config: Config, results: seq<ClusterResult>)
    requires Clustered(items, now, config, results)
    ensures TotalSize(results) == |items|
  {
    hide Build, Strongest, Blend, Authored, Inferred, Concat, TotalSize;
    var a := |Authored(items)|;
    var inferred := Inferred(items);
    var clusters := MembersOf(Build(inferred, config.Threshold()));
    PartitionSizes(items);
    TotalOfOnes(results[..a]);
    TotalOfClusters(results, clusters, a);
    ClustersConserveItems(inferred, config.Threshold());
    SameSize(Concat(clusters), inferred);
  }

  lemma SameSize(a: seq<Stamped>, b: seq<Stamped>)
    requires multiset(a) == multiset(b)
    ensures |a| == |b|
  {
    assert |multiset(a)| == |multiset(b)|;
  }

  /** An authored observation comes out unclustered, unchanged and with confidence exactly 1; any other result is
      one of its cluster's observations, changed in its confidence only, which is within the cap. */
  lemma ConfidenceThroughClustering(items: seq<Stamped>, now: real, config: Config, results: seq<ClusterResult>, i: nat)
    requires Clustered(items, now, config, results) && i < |results|
    requires config.Cap() >= 0.0 && config.Decay() >= 0.0
    requires forall x | x in items :: x.observation.confidence >= 0.0
    ensures var o := results[i].representative;
            && (o.authored <==> i < |Authored(items)|)
            && (exists x | x in items :: x.observation.(confidence := o.confidence) == o)
            && (if o.authored then o.confidence == 1.0 && results[i].clusterSize == 1 && !results[i].decayed
                else 0.0 <= o.confidence <= config.Cap())
  {
    hide Blend, Build, Authored, Inferred, Strongest;
    var authored := Authored(items);
    PartitionSizes(items);
    if i < |authored| {
      assert authored[i] in authored;
      assert authored[i].observation.(confidence := 1.0) == results[i].representative;
    } else {
      var k := i - |authored|;
      var members := MembersOf(Build(Inferred(items), config.Threshold()))[k];
      assert results[|authored| + k] == Result(members, now, config);
      var x := ResultIsAMember(Inferred(items), now, config, k);
    }
  }

  lemma ResultIsAMember(items: seq<Stamped>, now: real, config: Config, c: nat) returns (x: Stamped)
    requires config.Cap() >= 0.0 && config.Decay() >= 0.0
    requires forall x | x in items :: x.observation.confidence >= 0.0
    requires c < |Build(items, config.Threshold())| && Build(items, config.Threshold())[c].members != []
    ensures var o := Result(Build(items, config.Threshold())[c].members, now, config).representative;
            && x in items && x.observation.(confidence := o.confidence) == o
            && 0.0 <= o.confidence <= config.Cap()
  {
    hide Blend, Build, Strongest;
    var members := Build(items, config.Threshold())[c].members;
    var k := StrongestIsFirstMaximum(members);
    MemberIsInput(items, config.Threshold(), c, k);
    x := members[k];
    BlendWithinCap(x.observation.confidence, |members|, AgeDays(x, now), x.reinforcementCount.GetOr(0), config);
  }

  lemma MemberIsInput(items: seq<Stamped>, threshold: real, c: nat, k: nat)
    requires c < |Build(items, threshold)| && k < |Build(items, threshold)[c].members|
    ensures Build(items, threshold)[c].members[k] in items
  {
    var lists := MembersOf(Build(items, threshold));
    ClustersConserveItems(items, threshold);
    InConcat(lists, c, k);
    assert lists[c][k] in multiset(Concat(lists));
  }

  lemma {:induction false} InConcat(lists: seq<seq<Stamped>>, c: nat, k: nat)
    requires c < |lists| && k < |lists[c]|
    ensures lists[c][k] in Concat(lists)
    decreases c
  {
    if c > 0 { InConcat(lists[1..], c - 1, k); }
  }

  /** The stand-alone confidence helper agrees with clustering a single observation never reinforced. */
  lemma HelperAgrees(item: Stamped, now: real, config: Config, results: seq<ClusterResult>)
    requires item.reinforcementCount.GetOr(0) <= 0
    requires Clustered([item], now, config, results)
    ensures |results| == 1
    ensures results[0].representative.confidence == EffectiveConfidence(item.observation, AgeDays(item, now), config)
  {
    hide DecayFactor, Scaled, AgeDays, TokensOf;
    var items := [item];
    assert items[..0] == [];
    assert Authored(items) == if item.observation.authored then items else [];
    assert Inferred(items) == if item.observation.authored then [] else items;
    if !item.observation.authored {
      assert Build(items, config.Threshold()) == [Cluster(items, TokensOf(item))] by {
        BuildSnoc([], item, config.Threshold());
        assert [] + [item] == items;
      }
      assert MembersOf(Build(items, config.Threshold()))[0] == items;
      assert results[|Authored(items)| + 0] == Result(items, now, config);
    }
  }

  // ---------------------------------------------------------------------------
  // The pass
  // ---------------------------------------------------------------------------

  datatype PassResult = PassResult(contributed: nat, discarded: nat, diffsProcessed: nat, clusterMerges: nat)

  /** The representatives confident enough to be contributed. */
  function Survivors(results: seq<ClusterResult>, confidenceFloor: real): seq<Observation> {
    if results == [] then []
    else
      var o := results[|results| - 1].representative;
      Survivors(results[..|results| - 1], confidenceFloor) + if o.confidence < confidenceFloor then [] else [o]
  }

  /** `written` are the representatives of the results at the positions `at`, which are those that reach the floor. */
  ghost predicate Reaching(results: seq<ClusterResult>, confidenceFloor: real, at: seq<nat>, written: seq<Observation>)
  {
    && Ascends(at, |results|) && |at| == |written|
    && (forall i | 0 <= i < |at| :: written[i] == results[at[i]].representative)
    && forall k | 0 <= k < |results| :: k in at <==> results[k].representative.confidence >= confidenceFloor
  }

  lemma ReachingSnoc(init: seq<ClusterResult>, last: ClusterResult, confidenceFloor: real, at: seq<nat>,
      written: seq<Observation>)
    requires Reaching(init, confidenceFloor, at, written)
    ensures last.representative.confidence < confidenceFloor ==>
              Reaching(init + [last], confidenceFloor, at, written)
    ensures last.representative.confidence >= confidenceFloor ==>
              Reaching(init + [last], confidenceFloor, at + [|init|], written + [last.representative])
  {
  }

  /** Contributed are exactly the representatives whose confidence reaches the floor, in the order of their clusters. */
  lemma {:induction false} SurvivorsLaw(results: seq<ClusterResult>, confidenceFloor: real) returns (at: seq<nat>)
    ensures Reaching(results, confidenceFloor, at, Survivors(results, confidenceFloor))
    decreases |results|
  {
    at := [];
    if results != [] {
      hide Reaching;
      var n := |results| - 1;
      at := SurvivorsLaw(results[..n], confidenceFloor);
      ReachingSnoc(results[..n], results[n], confidenceFloor, at, Survivors(results[..n], confidenceFloor));
      assert results[..n] + [results[n]] == results;
      if results[n].representative.confidence >= confidenceFloor {
        at := at + [n];
      } else {
        assert Survivors(results, confidenceFloor) == Survivors(results[..n], confidenceFloor);
      }
    }
  }

  lemma {:induction false} MergesLaw(results: seq<ClusterResult>)
    ensures Merges(results) == |set k | 0 <= k < |results| && results[k].clusterSize > 1|
    decreases |results|
  {
    var merged := set k | 0 <= k < |results| && results[k].clusterSize > 1;
    if results == [] {
      assert merged == {};
    } else {
      var n := |results| - 1;
      MergesLaw(results[..n]);
      var before := set k | 0 <= k < |results[..n]| && results[..n][k].clusterSize > 1;
      assert merged == before + if results[n].clusterSize > 1 then {n} else {};
    }
  }

  function Merges(results: seq<ClusterResult>): nat {
    if results == [] then 0
    else Merges(results[..|results| - 1]) + if results[|results| - 1].clusterSize > 1 then 1 else 0
  }

  /** All the observations of a pass: those of each diff, recorded now, then the extra ones. */
  function Gathered(diffs: seq<seq<Observation>>, extra: seq<Stamped>, now: real): seq<Stamped> {
    FromDiffs(diffs, now) + extra
  }

  function FromDiffs(diffs: seq<seq<Observation>>, now: real): seq<Stamped> {
    if diffs == [] then []
    else FromDiffs(diffs[..|diffs| - 1], now) + Fresh(diffs[|diffs| - 1], now)
  }

  function Fresh(observations: seq<Observation>, now: real): seq<Stamped> {
    seq(|observations|, i requires 0 <= i < |observations| => Stamped(observations[i], now, None))
  }

  /** The lists one after the other. */
  function Flat(diffs: seq<seq<Observation>>): seq<Observation> {
    if diffs == [] then [] else diffs[0] + Flat(diffs[1..])
  }

  lemma {:induction false} FlatSnoc(diffs: seq<seq<Observation>>, last: seq<Observation>)
    ensures Flat(diffs + [last]) == Flat(diffs) + last
    decreases |diffs|
  {
    if diffs == [] {
      assert ([] + [last])[1..] == [];
    } else {
      FlatSnoc(diffs[1..], last);
      assert (diffs + [last])[1..] == diffs[1..] + [last];
    }
  }

  lemma {:induction false} FromDiffsLaw(diffs: seq<seq<Observation>>, now: real)
    ensures FromDiffs(diffs, now) == Fresh(Flat(diffs), now)
    decreases |diffs|
  {
    if diffs != [] {
      var m := |diffs| - 1;
      FromDiffsLaw(diffs[..m], now);
      FlatSnoc(diffs[..m], diffs[m]);
      assert diffs[..m] + [diffs[m]] == diffs;
      FreshAppend(Flat(diffs[..m]), diffs[m], now);
    }
  }

  lemma FreshAppend(a: seq<Observation>, b: seq<Observation>, now: real)
    ensures Fresh(a + b, now) == Fresh(a, now) + Fresh(b, now)
  {
  }

  /** What a pass starts from: every observation of every diff in order, recorded now and never reinforced, and then
      the extra ones unchanged. */
  lemma GatheredLaw(diffs: seq<seq<Observation>>, extra: seq<Stamped>, now: real)
    ensures var all, n := Gathered(diffs, extra, now), |Flat(diffs)|;
            && |all| == n + |extra| && all[n..] == extra
            && forall i | 0 <= i < n :: all[i] == Stamped(Flat(diffs)[i], now, None)
  {
    hide Flat, FromDiffs;
    FromDiffsLaw(diffs, now);
  }

  /** Steps 1 and 2 of a pass: the observations read from each diff, then the extra ones. */
  method Gather(diffs: seq<seq<Observation>>, extra: seq<Stamped>, now: real) returns (all: seq<Stamped>)
    ensures all == Gathered(diffs, extra, now)
  {
    var diffObservations: seq<Stamped> := [];
    for d := 0 to |diffs|
      invariant diffObservations == FromDiffs(diffs[..d], now)
    {
      assert diffs[..d + 1][..d] == diffs[..d];
      for o := 0 to |diffs[d]|
        invariant diffObservations == FromDiffs(diffs[..d], now) + Fresh(diffs[d][..o], now)
      {
        diffObservations := diffObservations + [Stamped(diffs[d][o], now, None)];
      }
      assert diffs[d][..|diffs[d]|] == diffs[d];
    }
    assert diffs[..|diffs|] == diffs;
    all := diffObservations + extra;
  }

  method CountMerges(clusters: seq<ClusterResult>) returns (clusterMerges: nat)
    ensures clusterMerges == Merges(clusters)
  {
    clusterMerges := 0;
    for c := 0 to |clusters|
      invariant clusterMerges == Merges(clusters[..c])
    {
      assert clusters[..c + 1][..c] == clusters[..c];
      if clusters[c].clusterSize > 1 {
        clusterMerges := clusterMerges + 1;
      }
    }
    assert clusters[..|clusters|] == clusters;
  }

  /** Steps 4 and 5: `written` is what the loop contributes. */
  method Contribute(clusters: seq<ClusterResult>, confidenceFloor: real)
    returns (written: seq<Observation>, contributed: nat, discarded: nat)
    ensures written == Survivors(clusters, confidenceFloor)
    ensures contributed == |written| && discarded == |clusters| - |written|
  {
    written, contributed, discarded := [], 0, 0;
    for c := 0 to |clusters|
      invariant written == Survivors(clusters[..c], confidenceFloor)
      invariant contributed == |written| && discarded == c - |written|
    {
      assert clusters[..c + 1][..c] == clusters[..c];
      var o := clusters[c].representative;
      if o.confidence < confidenceFloor {
        discarded := discarded + 1;
      } else {
        written := written + [o];
        contributed := contributed + 1;
      }
    }
    assert clusters[..|clusters|] == clusters;
  }

  /** The pass over the observations read from each diff and the extra ones; every cluster is either contributed
      or counted as discarded. */
  method RunObservationPass(diffs: seq<seq<Observation>>, extra: seq<Stamped>, now: real, config: Config,
                            confidenceFloor: real)
    returns (pass: PassResult, written: seq<Observation>, results: seq<ClusterResult>)
    ensures Clustered(Gathered(diffs, extra, now), now, config, results)
    ensures written == Survivors(results, confidenceFloor)
    ensures pass.contributed == |written| && pass.contributed + pass.discarded == |results|
    ensures pass.diffsProcessed == |diffs| && pass.clusterMerges == Merges(results)
  {
    var all := Gather(diffs, extra, now);
    if |all| == 0 {
      return PassResult(0, 0, |diffs|, 0), [], [];
    }
    results := ClusterObservations(all, now, config);
    var clusterMerges := CountMerges(results);
    var contributed, discarded;
    written, contributed, discarded := Contribute(results, confidenceFloor);
    pass := PassResult(contributed, discarded, |diffs|, clusterMerges);
  }

  /** Each merged cluster accounts for an observation that is neither contributed nor discarded. */
  lemma {:induction false} MergesAccount(results: seq<ClusterResult>)
    requires forall i | 0 <= i < |results| :: results[i].clusterSize >= 1
    ensures |results| + Merges(results) <= TotalSize(results)
    ensures Merges(results) == 0 <==> TotalSize(results) == |results|
  {
    if results != [] { MergesAccount(results[..|results| - 1]); }
  }

  lemma {:induction false} SurvivorsSplit(results: seq<ClusterResult>, confidenceFloor: real, n: nat)
    requires n <= |results|
    requires forall i | 0 <= i < n :: results[i].representative.confidence >= confidenceFloor
    ensures |Survivors(results, confidenceFloor)| <= |results|
    ensures n <= |Survivors(results, confidenceFloor)|
    ensures forall i | 0 <= i < n :: Survivors(results, confidenceFloor)[i] == results[i].representative
    decreases |results|
  {
    if results != [] {
      var m := |results| - 1;
      SurvivorsSplit(results[..m], confidenceFloor, if n <= m then n else m);
    }
  }

  /** The books of a pass balance: every cluster is contributed or discarded, and the observations that went in
      are the clusters plus one or more for each merge. With a floor of at most 1 the authored observations
      are all contributed, first and in order. */
  lemma PassAccounting(items: seq<Stamped>, now: real, config: Config, results: seq<ClusterResult>,
      confidenceFloor: real)
    requires Clustered(items, now, config, results)
    ensures var written := Survivors(results, confidenceFloor);
            var authored := Authored(items);
            && |written| <= |results|
            && |results| + Merges(results) <= |items|
            && (Merges(results) == 0 <==> |results| == |items|)
            && (confidenceFloor <= 1.0 ==>
                  |authored| <= |written|
                  && forall i | 0 <= i < |authored| :: written[i] == authored[i].observation.(confidence := 1.0))
  {
    hide Build, Blend, Authored, Inferred, Strongest;
    SizesSumToInput(items, now, config, results);
    var a := |Authored(items)|;
    forall i | 0 <= i < |results|
      ensures results[i].clusterSize >= 1
    {
      if i >= a {
        var members := MembersOf(Build(Inferred(items), config.Threshold()))[i - a];
        assert results[a + (i - a)] == Result(members, now, config);
      }
    }
    MergesAccount(results);
    SurvivorsSplit(results, confidenceFloor, if confidenceFloor <= 1.0 then |Authored(items)| else 0);
  }
}
