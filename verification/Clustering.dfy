/** Clustering architectural observations by the similarity of their texts. A text is represented by its set of
    tokens. */
module Clustering {
  import opened JsText

  predicate IsStopWord(word: string) {
    word in {
      "the", "a", "an", "and", "or", "in", "on", "at", "to", "for", "of", "is", "are", "was", "were", "be", "been",
      "have", "has", "had", "do", "does", "did", "with", "that", "this", "from", "by", "as", "it", "its", "not", "but",
      "all", "we", "they"}
  }

  /** What the tokenizer keeps: at least two letters or digits, in lower case, and no stop word. */
  predicate IsToken(word: string) {
    && |word| >= 2 && !IsStopWord(word)
    && forall i | 0 <= i < |word| :: 'a' <= word[i] <= 'z' || '0' <= word[i] <= '9'
  }

  type Token = string

  /** A set of words the tokenizer can return. */
  type Words = words: set<Token> | forall word | word in words :: IsToken(word) witness {}

  datatype Kind = Pattern | Convention | Decision | Deviation

  function KindToken(kind: Kind): Token {
    match kind
    case Pattern => "pattern"
    case Convention => "convention"
    case Decision => "decision"
    case Deviation => "deviation"
  }

  lemma LongWordStays(word: string)
    requires |word| >= 5 && forall i | 0 <= i < |word| :: 'a' <= word[i] <= 'z'
    ensures IsToken(word)
  {
  }

  /** The tokenizer keeps an observation's kind. */
  lemma KindIsToken(kind: Kind)
    ensures IsToken(KindToken(kind))
  {
    hide IsToken;
    LongWordStays(KindToken(kind));
  }

  /** `words` are the tokens of title and description, or of the payload's JSON form; `id` stands for everything the
      clusterer carries along without looking at it. */
  datatype Observation = Observation(id: nat, kind: Kind, words: Words, confidence: real, authored: bool) {
    /** The tokens of the observation's text, which begins with its kind. */
    function Tokens(): (tokens: set<Token>)
      ensures KindToken(kind) in tokens
    {
      {KindToken(kind)} + words
    }
  }

  /** All tokens of an observation are such as the tokenizer returns, and there is one at least. */
  lemma TokensAreTokens(o: Observation)
    ensures o.Tokens() != {} && forall token | token in o.Tokens() :: IsToken(token)
  {
    hide IsToken;
    KindIsToken(o.kind);
  }

  /** `recordedAt` is in milliseconds. */
  datatype Stamped = Stamped(observation: Observation, recordedAt: real, reinforcementCount: Option<int>)

  function TokensOf(item: Stamped): set<Token> {
    item.observation.Tokens()
  }

  datatype Config = Config(similarityThreshold: Option<real>, decayDays: Option<real>,
      inferenceConfidenceCap: Option<real>)
  {
    function Threshold(): real {
      similarityThreshold.GetOr(0.6)
    }
    function Decay(): real {
      decayDays.GetOr(30.0)
    }
    function Cap(): real {
      inferenceConfidenceCap.GetOr(0.95)
    }
  }

  datatype Cluster = Cluster(members: seq<Stamped>, tokens: set<Token>)

  datatype ClusterResult = ClusterResult(representative: Observation, clusterSize: nat, decayed: bool)

  // ---------------------------------------------------------------------------
  // Similarity
  // ---------------------------------------------------------------------------

  /** The Jaccard coefficient, 0 for two empty sets. */
  function Jaccard(a: set<Token>, b: set<Token>): real {
    if a + b == {} then 0.0 else |a * b| as real / |a + b| as real
  }

  lemma OneMoreToken(a: set<Token>, b: set<Token>, rest: set<Token>, token: Token)
    requires token in rest && rest <= a
    ensures |(a - (rest - {token})) * b| == |(a - rest) * b| + if token in b then 1 else 0
  {
    if token in b {
      assert (a - (rest - {token})) * b == (a - rest) * b + {token};
    } else {
      assert (a - (rest - {token})) * b == (a - rest) * b;
    }
  }

  lemma JaccardBySizes(a: set<Token>, b: set<Token>, intersection: nat)
    requires intersection == |a * b|
    ensures var union := |a| + |b| - intersection;
            Jaccard(a, b) == if union == 0 then 0.0 else intersection as real / union as real
  {
    assert |a| + |b| - intersection == |a + b|;
  }

  lemma JaccardIsRatio(a: set<Token>, b: set<Token>)
    ensures Jaccard(a, b) * |a + b| as real == |a * b| as real && (a + b == {} ==> Jaccard(a, b) == 0.0)
  {
    if a + b == {} {
      assert a * b == {};
    } else {
      TimesQuotient(|a * b| as real, |a + b| as real);
    }
  }

  lemma TimesQuotient(p: real, d: real)
    requires d > 0.0
    ensures p / d * d == p
  {
  }

  method JaccardSimilarity(a: set<Token>, b: set<Token>) returns (similarity: real)
    ensures similarity == Jaccard(a, b)
    ensures similarity * |a + b| as real == |a * b| as real && (a + b == {} ==> similarity == 0.0)
  {
    JaccardIsRatio(a, b);
    hide Jaccard;
    JaccardBySizes(a, b, |a * b|);
    if |a| == 0 && |b| == 0 {
      assert a * b == {};
      return 0.0;
    }
    var intersectionSize := 0;
    var rest := a;
    while rest != {}
      invariant rest <= a && intersectionSize == |(a - rest) * b|
      decreases |rest|
    {
      var token :| token in rest;
      OneMoreToken(a, b, rest, token);
      if token in b {
        intersectionSize := intersectionSize + 1;
      }
      rest := rest - {token};
    }
    assert (a - rest) * b == a * b;
    var unionSize := |a| + |b| - intersectionSize;
    similarity := if unionSize == 0 then 0.0 else intersectionSize as real / unionSize as real;
  }

  lemma QuotientGrows(p: real, q: real, d: real)
    requires p <= q && d > 0.0
    ensures p / d <= q / d
  {
  }

  lemma SelfQuotient(d: real)
    requires d > 0.0
    ensures d / d == 1.0
  {
  }

  lemma SizeOfPart(s: set<Token>, t: set<Token>)
    requires s <= t
    ensures |s| <= |t|
  {
    assert t == s + (t - s);
  }

  lemma JaccardRange(a: set<Token>, b: set<Token>)
    ensures 0.0 <= Jaccard(a, b) <= 1.0
    ensures a == {} ==> Jaccard(a, b) == 0.0
    ensures Jaccard(a, a) == if a == {} then 0.0 else 1.0
  {
    assert a + a == a && a * a == a;
    if a + b != {} {
      SizeOfPart(a * b, a + b);
      QuotientGrows(|a * b| as real, |a + b| as real, |a + b| as real);
      QuotientGrows(0.0, |a * b| as real, |a + b| as real);
    }
    if a == {} {
      assert a * b == {};
    } else {
      assert |a| > 0;
      SelfQuotient(|a| as real);
    }
  }

  /** A text is at least as similar to a cluster once it has joined it. */
  lemma JoiningOnlyHelps(a: set<Token>, u: set<Token>)
    ensures Jaccard(a, u + a) >= Jaccard(a, u)
  {
    assert a * (u + a) == a && a + (u + a) == a + u;
    SizeOfPart(a * u, a);
    if a + u != {} {
      QuotientGrows(|a * u| as real, |a| as real, |a + u| as real);
    }
  }

  // ---------------------------------------------------------------------------
  // Greedy clustering
  // ---------------------------------------------------------------------------

  /** The index of the first cluster from `from` on that is similar enough, `|clusters|` if none is. */
  function FirstSimilar(clusters: seq<Cluster>, tokens: set<Token>, threshold: real, from: nat): (k: nat)
    requires from <= |clusters|
    ensures from <= k <= |clusters|
    decreases |clusters| - from
  {
    if from == |clusters| || Jaccard(tokens, clusters[from].tokens) >= threshold then from
    else FirstSimilar(clusters, tokens, threshold, from + 1)
  }

  function Place(clusters: seq<Cluster>, item: Stamped, threshold: real): seq<Cluster> {
    var tokens := TokensOf(item);
    var k := FirstSimilar(clusters, tokens, threshold, 0);
    if k < |clusters| then clusters[k := Cluster(clusters[k].members + [item], clusters[k].tokens + tokens)]
    else clusters + [Cluster([item], tokens)]
  }

  function Build(items: seq<Stamped>, threshold: real): seq<Cluster> {
    if items == [] then []
    else Place(Build(items[..|items| - 1], threshold), items[|items| - 1], threshold)
  }

  /** `k` is the first cluster at least `threshold` similar to `tokens`, or one past the last. */
  ghost predicate FirstFit(clusters: seq<Cluster>, tokens: set<Token>, threshold: real, k: nat) {
    && k <= |clusters|
    && (forall j | 0 <= j < k :: Jaccard(tokens, clusters[j].tokens) < threshold)
    && (k < |clusters| ==> Jaccard(tokens, clusters[k].tokens) >= threshold)
  }

  lemma {:induction false} FirstSimilarIs(clusters: seq<Cluster>, tokens: set<Token>, threshold: real, from: nat,
      k: nat)
    requires FirstFit(clusters, tokens, threshold, k) && from <= k
    ensures FirstSimilar(clusters, tokens, threshold, from) == k
    decreases k - from
  {
    if from < k { FirstSimilarIs(clusters, tokens, threshold, from + 1, k); }
  }

  lemma {:induction false} FirstSimilarFits(clusters: seq<Cluster>, tokens: set<Token>, threshold: real, from: nat)
    requires from <= |clusters|
    requires forall j | 0 <= j < from :: Jaccard(tokens, clusters[j].tokens) < threshold
    ensures FirstFit(clusters, tokens, threshold, FirstSimilar(clusters, tokens, threshold, from))
    decreases |clusters| - from
  {
    if from < |clusters| && Jaccard(tokens, clusters[from].tokens) < threshold {
      FirstSimilarFits(clusters, tokens, threshold, from + 1);
    }
  }

  ghost predicate Parallel(clusters: seq<Cluster>, members: seq<seq<Stamped>>, tokens: seq<set<Token>>) {
    |clusters| == |members| == |tokens|
    && forall k | 0 <= k < |clusters| :: clusters[k] == Cluster(members[k], tokens[k])
  }

  function MembersOf(clusters: seq<Cluster>): seq<seq<Stamped>> {
    seq(|clusters|, k requires 0 <= k < |clusters| => clusters[k].members)
  }

  /** The single pass over the items, with the token sets kept beside the clusters. */
  method BuildClusters(items: seq<Stamped>, threshold: real) returns (clusters: seq<seq<Stamped>>)
    ensures clusters == MembersOf(Build(items, threshold))
  {
    hide Jaccard, TokensOf, FirstSimilar;
    clusters := [];
    var representativeTokens: seq<set<Token>> := [];
    var n := 0;
    while n < |items|
      invariant 0 <= n <= |items|
      invariant Parallel(Build(items[..n], threshold), clusters, representativeTokens)
    {
      var item := items[n];
      var tokens := TokensOf(item);
      ghost var built := Build(items[..n], threshold);
      assert items[..n + 1][..n] == items[..n];
      assert Build(items[..n + 1], threshold) == Place(built, item, threshold);
      var merged := false;
      var i := 0;
      while i < |clusters| && !merged
        invariant 0 <= i <= |clusters|
        invariant !merged ==> Parallel(built, clusters, representativeTokens)
        invariant !merged ==> forall j | 0 <= j < i :: Jaccard(tokens, built[j].tokens) < threshold
        invariant merged ==> Parallel(Place(built, item, threshold), clusters, representativeTokens)
        decreases |clusters| - i, !merged
      {
        var similarity := JaccardSimilarity(tokens, representativeTokens[i]);
        if similarity >= threshold {
          FirstSimilarIs(built, tokens, threshold, 0, i);
          clusters := clusters[i := clusters[i] + [item]];
          representativeTokens := representativeTokens[i := representativeTokens[i] + tokens];
          merged := true;
        } else {
          i := i + 1;
        }
      }
      if !merged {
        FirstSimilarIs(built, tokens, threshold, 0, |built|);
        clusters := clusters + [[item]];
        representativeTokens := representativeTokens + [tokens];
      }
      n := n + 1;
    }
    assert items[..n] == items;
  }

  // ---------------------------------------------------------------------------
  // Where each item ends up
  // ---------------------------------------------------------------------------

  /** The cluster that item `i` joins. */
  function Home(items: seq<Stamped>, threshold: real, i: nat): nat
    requires i < |items|
  {
    FirstSimilar(Build(items[..i], threshold), TokensOf(items[i]), threshold, 0)
  }

  /** The first `n` items whose home is `k`, in order of arrival. */
  function Share(items: seq<Stamped>, threshold: real, n: nat, k: nat): seq<Stamped>
    requires n <= |items|
  {
    if n == 0 then []
    else Share(items, threshold, n - 1, k) + if Home(items, threshold, n - 1) == k then [items[n - 1]] else []
  }

  function UnionOf(members: seq<Stamped>): set<Token> {
    if members == [] then {} else UnionOf(members[..|members| - 1]) + TokensOf(members[|members| - 1])
  }

  /** One more than the greatest home of the first `n` items. */
  function Homes(items: seq<Stamped>, threshold: real, n: nat): nat
    requires n <= |items|
  {
    if n == 0 then 0
    else
      var before := Homes(items, threshold, n - 1);
      if Home(items, threshold, n - 1) < before then before else Home(items, threshold, n - 1) + 1
  }

  lemma UnionAppend(members: seq<Stamped>, item: Stamped)
    ensures UnionOf(members + [item]) == UnionOf(members) + TokensOf(item)
  {
    assert (members + [item])[..|members|] == members;
  }

  /** Each cluster is exactly the items that chose it, in their order, and its token set is the union of theirs;
      no cluster is empty. Since an item has one home, it lies in exactly one cluster. */
  lemma {:induction false} ClusterIsItsShare(items: seq<Stamped>, threshold: real, n: nat)
    requires n <= |items|
    ensures var built := Build(items[..n], threshold);
            && |built| == Homes(items, threshold, n)
            && forall k | 0 <= k < |built| :: built[k].members == Share(items, threshold, n, k) != []
                                              && built[k].tokens == UnionOf(built[k].members)
    ensures forall k | k >= Homes(items, threshold, n) :: Share(items, threshold, n, k) == []
    decreases n
  {
    hide Jaccard, FirstSimilar, TokensOf, Place, Home, UnionOf;
    if n > 0 {
      var last := n - 1;
      var built, next := Build(items[..last], threshold), Build(items[..n], threshold);
      var home := Home(items, threshold, last);
      ClusterIsItsShare(items, threshold, last);
      PlacedAtHome(items, threshold, last);
      forall k | 0 <= k < |next|
        ensures next[k].members == Share(items, threshold, n, k) != [] && next[k].tokens == UnionOf(next[k].members)
      {
        if k == home {
          UnionAppend(if home < |built| then built[home].members else [], items[last]);
          UnionOfNone();
        }
      }
    }
  }

  lemma UnionOfNone()
    ensures UnionOf([]) == {}
  {
  }

  lemma PlacedAtHome(items: seq<Stamped>, threshold: real, i: nat)
    requires i < |items|
    ensures var built, next := Build(items[..i], threshold), Build(items[..i + 1], threshold);
            var home, item := Home(items, threshold, i), items[i];
            && home <= |built|
            && (home < |built| ==>
                  next == built[home := Cluster(built[home].members + [item], built[home].tokens + TokensOf(item))])
            && (home == |built| ==> next == built + [Cluster([item], TokensOf(item))])
  {
    hide Jaccard, FirstSimilar, TokensOf;
    assert items[..i + 1][..i] == items[..i];
  }

  /** The greedy rule in terms of the items alone: an item goes to the first cluster whose members so far are,
      together, similar enough, and starts the next cluster when there is none. */
  lemma HomeIsFirstFit(items: seq<Stamped>, threshold: real, i: nat)
    requires i < |items|
    ensures var tokens := TokensOf(items[i]);
            var home := Home(items, threshold, i);
            && home <= Homes(items, threshold, i)
            && (forall k | 0 <= k < home :: Jaccard(tokens, UnionOf(Share(items, threshold, i, k))) < threshold)
            && (home < Homes(items, threshold, i) ==>
                  Jaccard(tokens, UnionOf(Share(items, threshold, i, home))) >= threshold)
  {
    ClusterIsItsShare(items, threshold, i);
    var built := Build(items[..i], threshold);
    FirstSimilarFits(built, TokensOf(items[i]), threshold, 0);
    forall k | 0 <= k < Home(items, threshold, i)
      ensures Jaccard(TokensOf(items[i]), UnionOf(Share(items, threshold, i, k))) < threshold
    {
      assert built[k].tokens == UnionOf(Share(items, threshold, i, k));
    }
  }

  function Concat(lists: seq<seq<Stamped>>): seq<Stamped> {
    if lists == [] then [] else lists[0] + Concat(lists[1..])
  }

  lemma {:induction false} ConcatGrows(lists: seq<seq<Stamped>>, k: nat, item: Stamped)
    requires k < |lists|
    ensures multiset(Concat(lists[k := lists[k] + [item]])) == multiset(Concat(lists)) + multiset{item}
    decreases k
  {
    var grown := lists[k := lists[k] + [item]];
    if k == 0 {
      assert grown[1..] == lists[1..];
    } else {
      ConcatGrows(lists[1..], k - 1, item);
      assert grown[1..] == lists[1..][k - 1 := lists[1..][k - 1] + [item]] && grown[0] == lists[0];
    }
  }

  lemma {:induction false} ConcatAppend(lists: seq<seq<Stamped>>, last: seq<Stamped>)
    ensures Concat(lists + [last]) == Concat(lists) + last
  {
    if lists == [] {
      assert ([] + [last])[1..] == [];
    } else {
      ConcatAppend(lists[1..], last);
      assert (lists + [last])[1..] == lists[1..] + [last];
    }
  }

  lemma PlaceConserves(clusters: seq<Cluster>, item: Stamped, threshold: real)
    ensures multiset(Concat(MembersOf(Place(clusters, item, threshold))))
            == multiset(Concat(MembersOf(clusters))) + multiset{item}
  {
    hide Concat, FirstSimilar;
    var k := FirstSimilar(clusters, TokensOf(item), threshold, 0);
    var before, after := MembersOf(clusters), MembersOf(Place(clusters, item, threshold));
    if k < |clusters| {
      assert after == before[k := before[k] + [item]];
      ConcatGrows(before, k, item);
    } else {
      assert after == before + [[item]];
      ConcatAppend(before, [item]);
    }
  }

  /** No item is lost and none is duplicated. */
  lemma {:induction false} ClustersConserveItems(items: seq<Stamped>, threshold: real)
    ensures multiset(Concat(MembersOf(Build(items, threshold)))) == multiset(items)
    decreases |items|
  {
    hide Concat, MembersOf, Place;
    if items == [] {
      NothingToConcat();
    } else {
      var n := |items| - 1;
      ClustersConserveItems(items[..n], threshold);
      PlaceConserves(Build(items[..n], threshold), items[n], threshold);
      assert items == items[..n] + [items[n]];
    }
  }

  lemma NothingToConcat()
    ensures Concat(MembersOf([])) == []
  {
  }

  /** An observation that is repeated at once joins the cluster of its first occurrence exactly when any two texts can:
      when the threshold is at most 1. */
  lemma RepeatJoins(items: seq<Stamped>, threshold: real, x: Stamped, again: Stamped)
    requires TokensOf(again) == TokensOf(x)
    ensures var both := items + [x, again];
            Home(both, threshold, |items| + 1) == Home(both, threshold, |items|) <==> threshold <= 1.0
  {
    var both := items + [x, again];
    var n := |items|;
    assert both[..n] == items && both[..n + 1] == items + [x] && (items + [x])[..n] == items;
    RepeatFits(Build(items, threshold), threshold, x);
  }

  lemma RepeatFits(clusters: seq<Cluster>, threshold: real, x: Stamped)
    ensures var tokens := TokensOf(x);
            FirstSimilar(Place(clusters, x, threshold), tokens, threshold, 0) ==
                FirstSimilar(clusters, tokens, threshold, 0)
            <==> threshold <= 1.0
  {
    hide Jaccard, TokensOf;
    HasTokens(x);
    var a := TokensOf(x);
    var k := FirstSimilar(clusters, a, threshold, 0);
    FirstSimilarFits(clusters, a, threshold, 0);
    var placed := Place(clusters, x, threshold);
    JaccardRange(a, a);
    if k < |clusters| {
      JoiningOnlyHelps(a, clusters[k].tokens);
      JaccardRange(a, clusters[k].tokens);
      FirstSimilarIs(placed, a, threshold, 0, k);
    } else if Jaccard(a, a) >= threshold {
      FirstSimilarIs(placed, a, threshold, 0, k);
    } else {
      FirstSimilarIs(placed, a, threshold, 0, k + 1);
    }
  }

  lemma {:induction false} InItsShare(items: seq<Stamped>, threshold: real, n: nat, i: nat)
    requires i < n <= |items|
    ensures items[i] in Share(items, threshold, n, Home(items, threshold, i))
    decreases n
  {
    hide Home;
    if i < n - 1 { InItsShare(items, threshold, n - 1, i); }
  }

  lemma {:induction false} PartOfUnion(members: seq<Stamped>, item: Stamped)
    requires item in members
    ensures TokensOf(item) <= UnionOf(members)
  {
    var n := |members| - 1;
    if item != members[n] { PartOfUnion(members[..n], item); }
  }

  lemma ShareOfUnion(a: set<Token>, u: set<Token>, threshold: real)
    requires a <= u && u != {}
    ensures Jaccard(a, u) >= threshold <==> |a| as real >= threshold * |u| as real
  {
    assert a * u == a && a + u == u;
    QuotientLaw(|a| as real, |u| as real, threshold);
  }

  lemma QuotientLaw(p: real, d: real, t: real)
    requires d > 0.0
    ensures p / d >= t <==> p >= t * d
  {
    assert p / d * d == p;
    if p / d >= t {
      assert (p / d - t) * d >= 0.0;
    } else {
      assert (t - p / d) * d > 0.0;
    }
  }

  /** None of the clusters before `k`, as the first `n` items have built them, is similar enough. */
  ghost predicate NoneBefore(items: seq<Stamped>, threshold: real, n: nat, k: nat, tokens: set<Token>)
    requires n <= |items|
  {
    forall j | 0 <= j < k :: Jaccard(tokens, UnionOf(Share(items, threshold, n, j))) < threshold
  }

  lemma NoneBeforeIs(items: seq<Stamped>, threshold: real, n: nat, k: nat, tokens: set<Token>)
    requires n <= |items| && k <= |Build(items[..n], threshold)|
    ensures var built := Build(items[..n], threshold);
            NoneBefore(items, threshold, n, k, tokens)
            <==> forall j | 0 <= j < k :: Jaccard(tokens, built[j].tokens) < threshold
  {
    hide Jaccard, Build;
    ClusterIsItsShare(items, threshold, n);
  }

  /** Exactly when a repeat that comes later, after any further items, joins the cluster `k` of item `i`: if the
      observation's tokens are still at least the threshold's part of all tokens in `k`, and no earlier cluster
      has become similar enough. */
  lemma LaterRepeatLaw(items: seq<Stamped>, threshold: real, i: nat, again: Stamped)
    requires i < |items| && TokensOf(again) == TokensOf(items[i])
    ensures var n, k, a := |items|, Home(items, threshold, i), TokensOf(again);
            var u := UnionOf(Share(items, threshold, n, k));
            && a <= u
            && (Home(items + [again], threshold, n) == k <==>
                |a| as real >= threshold * |u| as real && NoneBefore(items, threshold, n, k, a))
  {
    hide Jaccard, Home, TokensOf, Build, FirstSimilar, NoneBefore;
    var n, k, a := |items|, Home(items, threshold, i), TokensOf(again);
    var u := UnionOf(Share(items, threshold, n, k));
    var built := Build(items, threshold);
    assert items[..n] == items;
    ClusterIsItsShare(items, threshold, n);
    InItsShare(items, threshold, n, i);
    PartOfUnion(Share(items, threshold, n, k), items[i]);
    HomeOfLast(items, threshold, again);
    HasTokens(again);
    ShareOfUnion(a, u, threshold);
    NoneBeforeIs(items, threshold, n, k, a);
    FitIsFirst(built, a, threshold, k);
  }

  lemma HasTokens(item: Stamped)
    ensures TokensOf(item) != {}
  {
  }

  lemma HomeOfLast(items: seq<Stamped>, threshold: real, x: Stamped)
    ensures Home(items + [x], threshold, |items|) == FirstSimilar(Build(items, threshold), TokensOf(x), threshold, 0)
  {
    assert (items + [x])[..|items|] == items;
  }

  lemma FitIsFirst(clusters: seq<Cluster>, tokens: set<Token>, threshold: real, k: nat)
    requires k < |clusters|
    ensures FirstSimilar(clusters, tokens, threshold, 0) == k <==>
            && Jaccard(tokens, clusters[k].tokens) >= threshold
            && forall j | 0 <= j < k :: Jaccard(tokens, clusters[j].tokens) < threshold
  {
    hide Jaccard, FirstSimilar;
    FirstSimilarFits(clusters, tokens, threshold, 0);
    if FirstFit(clusters, tokens, threshold, k) {
      FirstSimilarIs(clusters, tokens, threshold, 0, k);
    }
  }

  /** Observations of a pattern, in growing detail. */
  function Example(detail: nat): Stamped {
    Stamped(Observation(0, Pattern, ExampleWords(detail), 0.5, false), 0.0, None)
  }

  lemma ExampleTokens()
    ensures IsToken("retry") && IsToken("backoff") && IsToken("jitter") && IsToken("limit")
    ensures IsToken("queue") && IsToken("timer") && IsToken("drain")
  {
    hide IsToken;
    LongWordStays("retry");
    LongWordStays("backoff");
    LongWordStays("jitter");
    LongWordStays("limit");
    LongWordStays("queue");
    LongWordStays("timer");
    LongWordStays("drain");
  }

  function ExampleWords(detail: nat): Words {
    hide IsToken;
    ExampleTokens();
    if detail == 0 then {"retry", "backoff"}
    else if detail == 1 then {"retry", "backoff", "jitter", "limit"}
    else {"retry", "backoff", "jitter", "limit", "queue", "timer", "drain"}
  }

  /** With the default threshold a later repeat may start a cluster of its own: longer texts have joined in between and
      diluted the first one. */
  lemma LaterRepeatMayNotJoin()
    ensures var items := [Example(0), Example(1), Example(2), Example(0)];
            Home(items, 0.6, 0) == 0 && Home(items, 0.6, 1) == 0 && Home(items, 0.6, 2) == 0 && Home(items, 0.6, 3) == 1
  {
    hide Home, Example;
    ExampleSizes();
    Dilution(Example(0), Example(1), Example(2));
  }

  /** In general: three, five and eight tokens, each set containing the one before. */
  lemma Dilution(x: Stamped, y: Stamped, z: Stamped)
    requires TokensOf(x) <= TokensOf(y) <= TokensOf(z)
    requires |TokensOf(x)| == 3 && |TokensOf(y)| == 5 && |TokensOf(z)| == 8
    ensures var items := [x, y, z, x];
            Home(items, 0.6, 0) == 0 && Home(items, 0.6, 1) == 0 && Home(items, 0.6, 2) == 0 && Home(items, 0.6, 3) == 1
  {
    hide Jaccard, FirstSimilar, TokensOf, Build;
    var a, b, c := TokensOf(x), TokensOf(y), TokensOf(z);
    DilutingSimilarities(a, b, c);
    FirstSimilarIs([], a, 0.6, 0, 0);
    FirstSimilarIs([Cluster([x], a)], b, 0.6, 0, 0);
    FirstSimilarIs([Cluster([x, y], b)], c, 0.6, 0, 0);
    FirstSimilarIs([Cluster([x, y, z], c)], a, 0.6, 0, 1);
    DilutedBuild(x, y, z);
    var items := [x, y, z, x];
    assert items[..0] == [] && items[..1] == [x] && items[..2] == [x, y] && items[..3] == [x, y, z];
  }

  lemma DilutedBuild(x: Stamped, y: Stamped, z: Stamped)
    requires TokensOf(x) <= TokensOf(y) <= TokensOf(z)
    requires |TokensOf(x)| == 3 && |TokensOf(y)| == 5 && |TokensOf(z)| == 8
    ensures Build([], 0.6) == [] && Build([x], 0.6) == [Cluster([x], TokensOf(x))]
    ensures Build([x, y], 0.6) == [Cluster([x, y], TokensOf(y))]
    ensures Build([x, y, z], 0.6) == [Cluster([x, y, z], TokensOf(z))]
  {
    hide Jaccard, FirstSimilar, TokensOf, Build;
    var a, b, c := TokensOf(x), TokensOf(y), TokensOf(z);
    DilutingSimilarities(a, b, c);
    FirstSimilarIs([], a, 0.6, 0, 0);
    FirstSimilarIs([Cluster([x], a)], b, 0.6, 0, 0);
    FirstSimilarIs([Cluster([x, y], b)], c, 0.6, 0, 0);
    assert a + b == b && b + c == c;
    BuildNone(0.6);
    assert Build([x], 0.6) == [Cluster([x], a)] by { BuildSnoc([], x, 0.6); assert [] + [x] == [x]; }
    assert Build([x, y], 0.6) == [Cluster([x, y], b)] by { BuildSnoc([x], y, 0.6); assert [x] + [y] == [x, y]; }
    assert Build([x, y, z], 0.6) == [Cluster([x, y, z], c)] by {
      BuildSnoc([x, y], z, 0.6);
      assert [x, y] + [z] == [x, y, z];
    }
  }

  lemma BuildNone(threshold: real)
    ensures Build([], threshold) == []
  {
  }

  lemma DilutingSimilarities(a: set<Token>, b: set<Token>, c: set<Token>)
    requires a <= b <= c && |a| == 3 && |b| == 5 && |c| == 8
    ensures Jaccard(b, a) == 0.6 && Jaccard(c, b) == 0.625 && Jaccard(a, c) == 0.375
  {
    assert b * a == a && b + a == b && c * b == b && c + b == c && a * c == a && a + c == c;
  }

  lemma ExampleSizes()
    ensures TokensOf(Example(0)) <= TokensOf(Example(1)) <= TokensOf(Example(2))
    ensures |TokensOf(Example(0))| == 3 && |TokensOf(Example(1))| == 5 && |TokensOf(Example(2))| == 8
  {
    hide IsToken;
    var a, b, c := TokensOf(Example(0)), TokensOf(Example(1)), TokensOf(Example(2));
    assert a == {"pattern", "retry", "backoff"};
    assert b == a + {"jitter", "limit"};
    assert c == b + {"queue", "timer", "drain"};
  }

  lemma BuildSnoc(items: seq<Stamped>, x: Stamped, threshold: real)
    ensures Build(items + [x], threshold) == Place(Build(items, threshold), x, threshold)
  {
    assert (items + [x])[..|items|] == items;
  }
}
