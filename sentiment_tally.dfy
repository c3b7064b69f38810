/**
 * The result initialisation and the review tally loop of `main` in
 * practica-codi/src/exercici2.js.
 *
 * One statistics record per game is created, all four counters at zero.
 * Reviews are then walked in order.  A review whose `app_id` names no game
 * is skipped and extends the loop bound by one, so it does not use up the
 * budget of MAX_REVIEWS analysed reviews.  Each analysed review's sentiment
 * word lands in exactly one counter of the record at index `appid - 1`.
 *
 * The inference call `analyzeSentiment` is replaced by the sequence
 * `sentiment`: `sentiment[k]` is the word it returns for review `k`
 * ('error' when the request fails).
 */
module SentimentTally {
  import opened Wrappers

  /** How many reviews are analysed at most. */
  const MAX_REVIEWS: nat := 10

  datatype Game = Game(appid: int, name: string)

  datatype Review = Review(id: string, app_id: int, content: string)

  datatype Statistics = Statistics(positive: nat, negative: nat, neutral: nat, error: nat)

  datatype GameResult = GameResult(appid: int, name: string, statistics: Statistics)

  /** The four counters of a statistics record. */
  datatype Bucket = Positive | Negative | Neutral | Error

  /** Which counter a sentiment word goes to: only the three exact words
    * have a counter of their own, everything else counts as an error. */
  function Classify(sentiment: string): (b: Bucket)
    ensures b == Positive <==> sentiment == "positive"
    ensures b == Negative <==> sentiment == "negative"
    ensures b == Neutral <==> sentiment == "neutral"
    ensures b == Error <==> sentiment != "positive" && sentiment != "negative" && sentiment != "neutral"
  {
    if sentiment == "positive" then Positive
    else if sentiment == "negative" then Negative
    else if sentiment == "neutral" then Neutral
    else Error
  }

  /** The fallback word of a failed request lands in the error counter. */
  lemma FailedRequestCountsAsError()
    ensures Classify("error") == Error
  {
  }

  function Count(s: Statistics, b: Bucket): nat
  {
    match b
    case Positive => s.positive
    case Negative => s.negative
    case Neutral => s.neutral
    case Error => s.error
  }

  /** `after` is `before` with the counter `b` one higher and the others equal. */
  ghost predicate OneMore(before: Statistics, after: Statistics, b: Bucket)
  {
    Count(after, b) == Count(before, b) + 1 &&
    forall other :: other != b ==> Count(after, other) == Count(before, other)
  }

  /** `statistics.<bucket>++` */
  function Bump(s: Statistics, b: Bucket): (r: Statistics)
    ensures OneMore(s, r, b)
  {
    match b
    case Positive => s.(positive := s.positive + 1)
    case Negative => s.(negative := s.negative + 1)
    case Neutral => s.(neutral := s.neutral + 1)
    case Error => s.(error := s.error + 1)
  }

  function Total(s: Statistics): nat
  {
    s.positive + s.negative + s.neutral + s.error
  }

  lemma BumpAddsOne(s: Statistics, b: Bucket)
    ensures Total(Bump(s, b)) == Total(s) + 1
  {
  }

  const Zero := Statistics(0, 0, 0, 0)

  /** The value of `result.games` right after the initialisation loop. */
  function InitialResults(games: seq<Game>): seq<GameResult>
  {
    seq(|games|, k requires 0 <= k < |games| => GameResult(games[k].appid, games[k].name, Zero))
  }

  /** `games.find(g => g.appid === appId)`: the first game with that id. */
  function FindGame(games: seq<Game>, appId: int): (r: Option<Game>)
    ensures r.None? <==> forall k :: 0 <= k < |games| ==> games[k].appid != appId
    ensures r.Some? ==> r.value in games && r.value.appid == appId
    ensures r.Some? ==> exists k :: 0 <= k < |games| && games[k] == r.value &&
                                    forall j :: 0 <= j < k ==> games[j].appid != appId
  {
    if games == [] then None
    else if games[0].appid == appId then Some(games[0])
    else
      assert forall k :: 0 <= k < |games| - 1 ==> games[1..][k] == games[k + 1];
      FindGame(games[1..], appId)
  }

  predicate HasGame(games: seq<Game>, reviews: seq<Review>, k: nat)
  {
    k < |reviews| && FindGame(games, reviews[k].app_id).Some?
  }

  /** The indices, in order, of the reviews among the first `n` whose game exists. */
  function MatchedUpTo(games: seq<Game>, reviews: seq<Review>, n: nat): seq<nat>
    requires n <= |reviews|
  {
    if n == 0 then []
    else MatchedUpTo(games, reviews, n - 1) + (if HasGame(games, reviews, n - 1) then [n - 1] else [])
  }

  /** The reviews the loop analyses: the first MAX_REVIEWS of those whose game exists. */
  function Analysed(games: seq<Game>, reviews: seq<Review>): (r: seq<nat>)
    ensures |r| <= MAX_REVIEWS
    ensures forall t :: 0 <= t < |r| ==> r[t] < |reviews|
  {
    MatchedUpToCharacterised(games, reviews, |reviews|);
    var m := MatchedUpTo(games, reviews, |reviews|);
    if |m| <= MAX_REVIEWS then m else m[..MAX_REVIEWS]
  }

  /** One `result.games[appid - 1].statistics.<bucket>++`; an index outside
    * the array reads `undefined`, and the TypeError abandons the whole run. */
  function Record(table: seq<GameResult>, appid: int, b: Bucket): (r: Option<seq<GameResult>>)
    ensures r.Some? <==> 1 <= appid <= |table|
    ensures r.Some? ==> |r.value| == |table|
    ensures r.Some? ==> forall k :: 0 <= k < |table| && k != appid - 1 ==> r.value[k] == table[k]
    ensures r.Some? ==>
      r.value[appid - 1].appid == table[appid - 1].appid && r.value[appid - 1].name == table[appid - 1].name
    ensures r.Some? ==> OneMore(table[appid - 1].statistics, r.value[appid - 1].statistics, b)
  {
    var idx := appid - 1;
    if 0 <= idx < |table| then
      Some(table[idx := table[idx].(statistics := Bump(table[idx].statistics, b))])
    else None
  }

  predicate Indices(reviews: seq<Review>, sentiment: seq<string>, idxs: seq<nat>)
  {
    |sentiment| == |reviews| && forall t :: 0 <= t < |idxs| ==> idxs[t] < |reviews|
  }

  /** The table after the reviews `idxs` have been tallied, in order. */
  function Apply(table: seq<GameResult>, reviews: seq<Review>, sentiment: seq<string>, idxs: seq<nat>): Option<seq<GameResult>>
    requires Indices(reviews, sentiment, idxs)
  {
    if idxs == [] then Some(table)
    else
      match Apply(table, reviews, sentiment, idxs[..|idxs| - 1])
      case None => None
      case Some(t) =>
        var k := idxs[|idxs| - 1];
        Record(t, reviews[k].app_id, Classify(sentiment[k]))
  }

  /** Tallying one more review after `idxs`. */
  lemma ApplySnoc(table: seq<GameResult>, reviews: seq<Review>, sentiment: seq<string>, idxs: seq<nat>, k: nat)
    requires Indices(reviews, sentiment, idxs) && k < |reviews|
    ensures Indices(reviews, sentiment, idxs + [k])
    ensures Apply(table, reviews, sentiment, idxs + [k]) ==
      match Apply(table, reviews, sentiment, idxs)
      case None => None
      case Some(t) => Record(t, reviews[k].app_id, Classify(sentiment[k]))
  {
    assert (idxs + [k])[..|idxs|] == idxs;
  }

  /** What the loop leaves in `result.games`, or None when it throws. */
  function TallySpec(games: seq<Game>, reviews: seq<Review>, sentiment: seq<string>): Option<seq<GameResult>>
    requires |sentiment| == |reviews|
  {
    Apply(InitialResults(games), reviews, sentiment, Analysed(games, reviews))
  }

  lemma {:induction false} MatchedUpToCharacterised(games: seq<Game>, reviews: seq<Review>, n: nat)
    requires n <= |reviews|
    ensures |MatchedUpTo(games, reviews, n)| <= n
    ensures forall t :: 0 <= t < |MatchedUpTo(games, reviews, n)| ==> MatchedUpTo(games, reviews, n)[t] < n
    ensures forall k: nat :: k in MatchedUpTo(games, reviews, n) <==> k < n && HasGame(games, reviews, k)
    ensures forall s, t :: 0 <= s < t < |MatchedUpTo(games, reviews, n)| ==>
      MatchedUpTo(games, reviews, n)[s] < MatchedUpTo(games, reviews, n)[t]
  {
    if n > 0 {
      MatchedUpToCharacterised(games, reviews, n - 1);
    }
  }

  lemma {:induction false} MatchedUpToPrefix(games: seq<Game>, reviews: seq<Review>, m: nat, n: nat)
    requires m <= n <= |reviews|
    ensures |MatchedUpTo(games, reviews, m)| <= |MatchedUpTo(games, reviews, n)|
    ensures MatchedUpTo(games, reviews, m) == MatchedUpTo(games, reviews, n)[..|MatchedUpTo(games, reviews, m)|]
  {
    if m < n {
      MatchedUpToPrefix(games, reviews, m, n - 1);
    }
  }

  lemma AnalysedIsPrefix(games: seq<Game>, reviews: seq<Review>)
    ensures |Analysed(games, reviews)| <= |MatchedUpTo(games, reviews, |reviews|)|
    ensures Analysed(games, reviews) ==
      MatchedUpTo(games, reviews, |reviews|)[..|Analysed(games, reviews)|]
  {
  }

  /** The analysed reviews are exactly the first min(MAX_REVIEWS, #matched)
    * reviews that have a game, in order: every review index read is below
    * `reviews.length` and a review without a game is never analysed. */
  lemma AnalysedAreFirstMatched(games: seq<Game>, reviews: seq<Review>)
    ensures var matched := MatchedUpTo(games, reviews, |reviews|);
      |Analysed(games, reviews)| == if |matched| <= MAX_REVIEWS then |matched| else MAX_REVIEWS
    ensures forall t :: 0 <= t < |Analysed(games, reviews)| ==> HasGame(games, reviews, Analysed(games, reviews)[t])
    ensures forall s, t :: 0 <= s < t < |Analysed(games, reviews)| ==>
      Analysed(games, reviews)[s] < Analysed(games, reviews)[t]
  {
    var matched := MatchedUpTo(games, reviews, |reviews|);
    var a := Analysed(games, reviews);
    MatchedUpToCharacterised(games, reviews, |reviews|);
    AnalysedIsPrefix(games, reviews);
    assert forall t :: 0 <= t < |a| ==> a[t] == matched[t];
  }

  /** A review with a game is left out only once the budget is spent, and
    * only when it comes after every analysed one. */
  lemma SkippedOnlyWhenBudgetSpent(games: seq<Game>, reviews: seq<Review>, k: nat)
    requires HasGame(games, reviews, k) && k !in Analysed(games, reviews)
    ensures |Analysed(games, reviews)| == MAX_REVIEWS
    ensures forall t :: 0 <= t < MAX_REVIEWS ==> Analysed(games, reviews)[t] < k
  {
    var matched := MatchedUpTo(games, reviews, |reviews|);
    var a := Analysed(games, reviews);
    MatchedUpToCharacterised(games, reviews, |reviews|);
    AnalysedIsPrefix(games, reviews);
    var p :| 0 <= p < |matched| && matched[p] == k;
    assert |a| <= p;
    assert forall t :: 0 <= t < |a| ==> a[t] == matched[t];
  }

  /** The four counters summed over all games. */
  function TotalOf(table: seq<GameResult>): nat
  {
    if table == [] then 0 else TotalOf(table[..|table| - 1]) + Total(table[|table| - 1].statistics)
  }

  lemma {:induction false} TotalOfUpdate(table: seq<GameResult>, idx: nat, x: GameResult)
    requires idx < |table|
    ensures TotalOf(table[idx := x]) + Total(table[idx].statistics) == TotalOf(table) + Total(x.statistics)
  {
    var n := |table|;
    if idx < n - 1 {
      assert table[idx := x][..n - 1] == table[..n - 1][idx := x];
      TotalOfUpdate(table[..n - 1], idx, x);
    } else {
      assert table[idx := x][..n - 1] == table[..n - 1];
    }
  }

  lemma {:induction false} TotalOfZero(table: seq<GameResult>)
    requires forall k :: 0 <= k < |table| ==> table[k].statistics == Zero
    ensures TotalOf(table) == 0
  {
    if table != [] {
      TotalOfZero(table[..|table| - 1]);
    }
  }

  /** Counting one review adds one to the table's total. */
  lemma RecordTotal(table: seq<GameResult>, appid: int, b: Bucket)
    ensures Record(table, appid, b).Some? ==> TotalOf(Record(table, appid, b).value) == TotalOf(table) + 1
  {
    if 1 <= appid <= |table| {
      var x := table[appid - 1].(statistics := Bump(table[appid - 1].statistics, b));
      TotalOfUpdate(table, appid - 1, x);
      BumpAddsOne(table[appid - 1].statistics, b);
    }
  }

  /** Tallying keeps one entry per game with the same `appid` and `name`. */
  lemma {:induction false} ApplyKeepsEntries(table: seq<GameResult>, reviews: seq<Review>, sentiment: seq<string>, idxs: seq<nat>)
    requires Indices(reviews, sentiment, idxs)
    ensures Apply(table, reviews, sentiment, idxs).Some? ==>
      var r := Apply(table, reviews, sentiment, idxs).value;
      |r| == |table| &&
      forall k :: 0 <= k < |table| ==> r[k].appid == table[k].appid && r[k].name == table[k].name
  {
    if idxs != [] {
      ApplyKeepsEntries(table, reviews, sentiment, idxs[..|idxs| - 1]);
    }
  }

  /** Each tallied review adds exactly one to the counters. */
  lemma {:induction false} ApplyTotals(table: seq<GameResult>, reviews: seq<Review>, sentiment: seq<string>, idxs: seq<nat>)
    requires Indices(reviews, sentiment, idxs)
    ensures Apply(table, reviews, sentiment, idxs).Some? ==>
      TotalOf(Apply(table, reviews, sentiment, idxs).value) == TotalOf(table) + |idxs|
  {
    if idxs != [] {
      var front := idxs[..|idxs| - 1];
      ApplyTotals(table, reviews, sentiment, front);
      if Apply(table, reviews, sentiment, front).Some? {
        var k := idxs[|idxs| - 1];
        RecordTotal(Apply(table, reviews, sentiment, front).value, reviews[k].app_id, Classify(sentiment[k]));
      }
    }
  }

  /** A run that throws part-way throws on any longer list of reviews. */
  lemma {:induction false} ApplyNoneExtends(table: seq<GameResult>, reviews: seq<Review>, sentiment: seq<string>, xs: seq<nat>, ys: seq<nat>)
    requires Indices(reviews, sentiment, ys)
    requires |xs| <= |ys| && xs == ys[..|xs|]
    requires Apply(table, reviews, sentiment, xs) == None
    ensures Apply(table, reviews, sentiment, ys) == None
  {
    if |xs| < |ys| {
      var front := ys[..|ys| - 1];
      assert front[..|xs|] == xs;
      ApplyNoneExtends(table, reviews, sentiment, xs, front);
      assert Apply(table, reviews, sentiment, front) == None;
    } else {
      assert xs == ys;
    }
  }

  /** At the end, the counters summed over all games equal the number of
    * analysed reviews, which is at most MAX_REVIEWS, and every entry keeps
    * the `appid` and `name` of its game. */
  lemma TallyTotals(games: seq<Game>, reviews: seq<Review>, sentiment: seq<string>)
    requires |sentiment| == |reviews|
    ensures TallySpec(games, reviews, sentiment).Some? ==>
      var r := TallySpec(games, reviews, sentiment).value;
      |r| == |games| && TotalOf(r) == |Analysed(games, reviews)| <= MAX_REVIEWS &&
      forall k :: 0 <= k < |games| ==> r[k].appid == games[k].appid && r[k].name == games[k].name
  {
    var init := InitialResults(games);
    var a := Analysed(games, reviews);
    assert TallySpec(games, reviews, sentiment) == Apply(init, reviews, sentiment, a);
    TotalOfZero(init);
    ApplyTotals(init, reviews, sentiment, a);
    ApplyKeepsEntries(init, reviews, sentiment, a);
  }

  /** How many of the reviews `idxs` are about game `appid` and carry a word of bucket `b`. */
  function CountOf(reviews: seq<Review>, sentiment: seq<string>, idxs: seq<nat>, appid: int, b: Bucket): nat
    requires Indices(reviews, sentiment, idxs)
  {
    if idxs == [] then 0
    else
      var k := idxs[|idxs| - 1];
      CountOf(reviews, sentiment, idxs[..|idxs| - 1], appid, b)
        + (if reviews[k].app_id == appid && Classify(sentiment[k]) == b then 1 else 0)
  }

  lemma {:induction false} ApplyCounts(table: seq<GameResult>, reviews: seq<Review>, sentiment: seq<string>, idxs: seq<nat>)
    requires Indices(reviews, sentiment, idxs)
    requires forall t :: 0 <= t < |idxs| ==> 1 <= reviews[idxs[t]].app_id <= |table|
    ensures Apply(table, reviews, sentiment, idxs).Some?
    ensures var r := Apply(table, reviews, sentiment, idxs).value;
      |r| == |table| &&
      forall k, b :: 0 <= k < |table| ==>
        Count(r[k].statistics, b) == Count(table[k].statistics, b) + CountOf(reviews, sentiment, idxs, k + 1, b)
  {
    if idxs != [] {
      var front := idxs[..|idxs| - 1];
      ApplyCounts(table, reviews, sentiment, front);
      var t := Apply(table, reviews, sentiment, front).value;
      var last := idxs[|idxs| - 1];
      var r := Apply(table, reviews, sentiment, idxs).value;
      forall k, b | 0 <= k < |table|
        ensures Count(r[k].statistics, b) == Count(table[k].statistics, b) + CountOf(reviews, sentiment, idxs, k + 1, b)
      {
        if k == reviews[last].app_id - 1 {
          assert OneMore(t[k].statistics, r[k].statistics, Classify(sentiment[last]));
        }
      }
    }
  }

  /** Tallying throws exactly when one of the tallied reviews names an id
    * outside 1 .. the number of entries. */
  lemma {:induction false} ApplyThrowsIff(table: seq<GameResult>, reviews: seq<Review>, sentiment: seq<string>, idxs: seq<nat>)
    requires Indices(reviews, sentiment, idxs)
    ensures Apply(table, reviews, sentiment, idxs).None? <==>
      exists t :: 0 <= t < |idxs| && !(1 <= reviews[idxs[t]].app_id <= |table|)
  {
    if idxs != [] {
      var front := idxs[..|idxs| - 1];
      ApplyThrowsIff(table, reviews, sentiment, front);
      ApplyKeepsEntries(table, reviews, sentiment, front);
      if Apply(table, reviews, sentiment, idxs).None? && Apply(table, reviews, sentiment, front).Some? {
        assert !(1 <= reviews[idxs[|idxs| - 1]].app_id <= |table|);
      }
      if Apply(table, reviews, sentiment, front).None? {
        var t :| 0 <= t < |front| && !(1 <= reviews[front[t]].app_id <= |table|);
        assert idxs[t] == front[t];
      }
    }
  }

  /** The run throws exactly when an analysed review's id, which is also the
    * id of its game, lies outside 1 .. the number of games. */
  lemma TallyThrowsIff(games: seq<Game>, reviews: seq<Review>, sentiment: seq<string>)
    requires |sentiment| == |reviews|
    ensures TallySpec(games, reviews, sentiment).None? <==>
      exists t :: 0 <= t < |Analysed(games, reviews)| &&
        !(1 <= reviews[Analysed(games, reviews)[t]].app_id <= |games|)
  {
    ApplyThrowsIff(InitialResults(games), reviews, sentiment, Analysed(games, reviews));
  }

  /** When no analysed review's id is out of range, the entry at position k
    * counts the analysed reviews whose id is k + 1, whichever game sits at
    * position k, each in the counter of its sentiment word's bucket. */
  lemma TallyCountsPerPosition(games: seq<Game>, reviews: seq<Review>, sentiment: seq<string>)
    requires |sentiment| == |reviews|
    requires forall t :: 0 <= t < |Analysed(games, reviews)| ==>
      1 <= reviews[Analysed(games, reviews)[t]].app_id <= |games|
    ensures TallySpec(games, reviews, sentiment).Some?
    ensures var r := TallySpec(games, reviews, sentiment).value;
      |r| == |games| &&
      (forall k :: 0 <= k < |games| ==> r[k].appid == games[k].appid && r[k].name == games[k].name) &&
      forall k, b :: 0 <= k < |games| ==>
        Count(r[k].statistics, b) == CountOf(reviews, sentiment, Analysed(games, reviews), k + 1, b)
  {
    ApplyCounts(InitialResults(games), reviews, sentiment, Analysed(games, reviews));
    TallyTotals(games, reviews, sentiment);
  }

  /** Game ids are dense and 1-based: the game at position k has id k + 1. */
  predicate DenseIds(games: seq<Game>)
  {
    forall k :: 0 <= k < |games| ==> games[k].appid == k + 1
  }

  /** With dense 1-based ids the loop never throws, and each game's four
    * counters count exactly the analysed reviews of that game whose
    * sentiment word falls in that counter's bucket. */
  lemma DenseTallyCountsPerGame(games: seq<Game>, reviews: seq<Review>, sentiment: seq<string>)
    requires |sentiment| == |reviews|
    requires DenseIds(games)
    ensures TallySpec(games, reviews, sentiment).Some?
    ensures var r := TallySpec(games, reviews, sentiment).value;
      |r| == |games| &&
      (forall k :: 0 <= k < |games| ==> r[k].appid == games[k].appid && r[k].name == games[k].name) &&
      forall k, b :: 0 <= k < |games| ==>
        Count(r[k].statistics, b) == CountOf(reviews, sentiment, Analysed(games, reviews), games[k].appid, b)
  {
    var a := Analysed(games, reviews);
    AnalysedAreFirstMatched(games, reviews);
    forall t | 0 <= t < |a| ensures 1 <= reviews[a[t]].app_id <= |games| {
      assert HasGame(games, reviews, a[t]);
      var g := FindGame(games, reviews[a[t]].app_id).value;
      assert g.appid == reviews[a[t]].app_id;
      var p :| 0 <= p < |games| && games[p] == g;
      assert games[p].appid == p + 1;
    }
    TallyCountsPerPosition(games, reviews, sentiment);
    var r := TallySpec(games, reviews, sentiment).value;
    forall k, b | 0 <= k < |games|
      ensures Count(r[k].statistics, b) == CountOf(reviews, sentiment, a, games[k].appid, b)
    {
      assert games[k].appid == k + 1;
    }
  }

  /** Where the tally loop stops, the reviews seen so far that have a game
    * are exactly the analysed ones. */
  lemma LoopEndAnalysed(games: seq<Game>, reviews: seq<Review>, i: nat)
    requires i <= |reviews| && |MatchedUpTo(games, reviews, i)| <= MAX_REVIEWS
    requires i == |reviews| || |MatchedUpTo(games, reviews, i)| == MAX_REVIEWS
    ensures Analysed(games, reviews) == MatchedUpTo(games, reviews, i)
  {
    MatchedUpToPrefix(games, reviews, i, |reviews|);
  }

  /** A throw while tallying the matched reviews among the first `n` ends the
    * whole run, as long as they are within the budget. */
  lemma ThrowsFromPrefix(games: seq<Game>, reviews: seq<Review>, sentiment: seq<string>, n: nat)
    requires |sentiment| == |reviews| && n <= |reviews|
    requires |MatchedUpTo(games, reviews, n)| <= MAX_REVIEWS
    requires Indices(reviews, sentiment, MatchedUpTo(games, reviews, n))
    requires Apply(InitialResults(games), reviews, sentiment, MatchedUpTo(games, reviews, n)) == None
    ensures TallySpec(games, reviews, sentiment) == None
  {
    MatchedUpToPrefix(games, reviews, n, |reviews|);
    AnalysedIsPrefix(games, reviews);
    ApplyNoneExtends(InitialResults(games), reviews, sentiment, MatchedUpTo(games, reviews, n), Analysed(games, reviews));
  }

  /** The initialisation loop of `main`: one record per game, in the order
    * of `games`, with its `appid` and `name` and all four counters at 0. */
  method InitResults(games: seq<Game>) returns (entries: array<GameResult>)
    ensures fresh(entries)
    ensures entries.Length == |games|
    ensures forall k :: 0 <= k < |games| ==>
      entries[k].appid == games[k].appid && entries[k].name == games[k].name && entries[k].statistics == Zero
    ensures entries[..] == InitialResults(games)
  {
    entries := new GameResult[|games|];
    for k := 0 to |games|
      invariant forall t :: 0 <= t < k ==> entries[t] == GameResult(games[t].appid, games[t].name, Zero)
    {
      entries[k] := GameResult(games[k].appid, games[k].name, Zero);
    }
  }

  /** A review without a game is not analysed. */
  lemma TallySkip(games: seq<Game>, reviews: seq<Review>, i: nat)
    requires i < |reviews| && !HasGame(games, reviews, i)
    ensures MatchedUpTo(games, reviews, i + 1) == MatchedUpTo(games, reviews, i)
  {
  }

  /** A review with a game is analysed next: its count joins the tally. */
  lemma TallyCount(table: seq<GameResult>, games: seq<Game>, reviews: seq<Review>, sentiment: seq<string>, i: nat,
                   before: seq<GameResult>, after: seq<GameResult>)
    requires i < |reviews| && HasGame(games, reviews, i)
    requires Indices(reviews, sentiment, MatchedUpTo(games, reviews, i))
    requires Apply(table, reviews, sentiment, MatchedUpTo(games, reviews, i)) == Some(before)
    requires Record(before, reviews[i].app_id, Classify(sentiment[i])) == Some(after)
    ensures MatchedUpTo(games, reviews, i + 1) == MatchedUpTo(games, reviews, i) + [i]
    ensures Indices(reviews, sentiment, MatchedUpTo(games, reviews, i + 1))
    ensures Apply(table, reviews, sentiment, MatchedUpTo(games, reviews, i + 1)) == Some(after)
  {
    ApplySnoc(table, reviews, sentiment, MatchedUpTo(games, reviews, i), i);
  }

  /** A review with a game whose entry is missing, within the budget, makes
    * the whole run throw. */
  lemma TallyThrow(games: seq<Game>, reviews: seq<Review>, sentiment: seq<string>, i: nat, before: seq<GameResult>)
    requires |sentiment| == |reviews| && i < |reviews| && HasGame(games, reviews, i)
    requires |MatchedUpTo(games, reviews, i)| < MAX_REVIEWS
    requires Indices(reviews, sentiment, MatchedUpTo(games, reviews, i))
    requires Apply(InitialResults(games), reviews, sentiment, MatchedUpTo(games, reviews, i)) == Some(before)
    requires Record(before, reviews[i].app_id, Classify(sentiment[i])) == None
    ensures TallySpec(games, reviews, sentiment) == None
  {
    var m := MatchedUpTo(games, reviews, i);
    ApplySnoc(InitialResults(games), reviews, sentiment, m, i);
    assert MatchedUpTo(games, reviews, i + 1) == m + [i];
    ThrowsFromPrefix(games, reviews, sentiment, i + 1);
  }

  /** `result.games[idx].statistics.<bucket>++` on the array: the if-chain
    * on the sentiment word is Classify, which picks the counter, and Bump,
    * which adds one to it. */
  method Increment(entries: array<GameResult>, idx: nat, b: Bucket)
    requires idx < entries.Length
    modifies entries
    ensures Record(old(entries[..]), idx + 1, b) == Some(entries[..])
  {
    entries[idx] := entries[idx].(statistics := Bump(entries[idx].statistics, b));
  }

  /** The tally loop of `main`, after the initialisation. */
  method TallyReviews(games: seq<Game>, reviews: seq<Review>, sentiment: seq<string>)
    returns (result: Option<seq<GameResult>>)
    requires |sentiment| == |reviews|
    ensures result == TallySpec(games, reviews, sentiment)
  {
    var entries := InitResults(games);
    ghost var init := entries[..];

    var iterations := MAX_REVIEWS;
    var i := 0;
    ghost var counted: seq<nat> := [];
    while i < iterations
      invariant i <= |reviews|
      invariant counted == MatchedUpTo(games, reviews, i)
      invariant iterations == MAX_REVIEWS + (i - |counted|) && |counted| <= MAX_REVIEWS && |counted| <= i
      invariant Indices(reviews, sentiment, counted)
      invariant Apply(init, reviews, sentiment, counted) == Some(entries[..])
      decreases |reviews| - i
    {
      if i >= |reviews| {
        break;
      }
      var review := reviews[i];
      var game := FindGame(games, review.app_id);
      if game.None? {
        // a review without a game does not use up the budget
        TallySkip(games, reviews, i);
        iterations := iterations + 1;
        i := i + 1;
        counted := MatchedUpTo(games, reviews, i);
        continue;
      }
      var idx := game.value.appid - 1;
      var b := Classify(sentiment[i]);
      ghost var before := entries[..];
      if !(0 <= idx < entries.Length) {
        // `result.games[idx]` is undefined: the TypeError ends the run
        TallyThrow(games, reviews, sentiment, i, before);
        return None;
      }
      Increment(entries, idx, b);
      TallyCount(init, games, reviews, sentiment, i, before, entries[..]);
      i := i + 1;
      counted := MatchedUpTo(games, reviews, i);
    }
    LoopEndAnalysed(games, reviews, i);
    return Some(entries[..]);
  }
}
