/** The two read-only queries of the trade service: the filtered listing
    (`get_trades_search_filter`) and the lookup by identifier
    (`get_trade_by_id`). */
module TradeQuery {
  import opened Trades
  import opened Subsequences

  /** A successful answer, or the service's 404 with its detail message. */
  datatype Result<+T> = Ok(value: T) | NotFound(detail: string)

  /** The optional query parameters of the listing endpoint. */
  datatype Query = Query(
    search: Option<string>,
    assetClass: Option<string>,
    start: Option<int>,
    end: Option<int>,
    tradeType: Option<string>,
    minPrice: Option<real>,
    maxPrice: Option<real>)

  const NoParameters: Query := Query(None, None, None, None, None, None, None)

  /** The single filter a request ends up applying. */
  datatype Criterion =
    | Search(text: string)
    | AssetClass(assetClass: string)
    | TradeType(buySellIndicator: string)
    | PriceRange(low: real, high: real)
    | MinPrice(low: real)
    | MaxPrice(high: real)
    | Start(from: int)
    | End(until: int)

  /** The test each filter applies to one trade. */
  predicate Holds(c: Criterion, t: Trade) {
    match c
    case Search(text) => MatchesSearch(t, text)
    case AssetClass(a) => t.assetClass == a
    case TradeType(b) => t.tradeDetails.buySellIndicator == b
    case PriceRange(low, high) => t.tradeDetails.price >= low && t.tradeDetails.price <= high
    case MinPrice(low) => t.tradeDetails.price >= low
    case MaxPrice(high) => t.tradeDetails.price <= high
    case Start(from) => t.tradeDateTime >= from
    case End(until) => t.tradeDateTime <= until
  }

  /** The 404 detail reported when a filter keeps no trade. */
  function NotFoundDetail(c: Criterion): string {
    match c
    case Search(_) => "No trades match the search criteria"
    case AssetClass(_) => "No trades match the assetClass criteria"
    case TradeType(_) => "No trades match the tradeType criteria"
    case PriceRange(_, _) => "No trades match the range criteria"
    case MinPrice(_) => "No trades match the minPrice criteria"
    case MaxPrice(_) => "No trades match the maxPrice criteria"
    case Start(_) => "No trades match the start criteria"
    case End(_) => "No trades match the end criteria"
  }

  const TradeNotFound: string := "Trade not found"

  /** The position of a filter's branch in the if/elif chain. */
  function Kind(c: Criterion): nat {
    match c
    case Search(_) => 0
    case AssetClass(_) => 1
    case TradeType(_) => 2
    case PriceRange(_, _) => 3
    case MinPrice(_) => 4
    case MaxPrice(_) => 5
    case Start(_) => 6
    case End(_) => 7
  }

  /** Every branch reports its own 404 message: two filters give the same
      detail exactly when they come from the same branch, and no listing
      message can be mistaken for the lookup's. */
  lemma NotFoundDetailIdentifiesFilter(c1: Criterion, c2: Criterion)
    ensures NotFoundDetail(c1) == NotFoundDetail(c2) <==> Kind(c1) == Kind(c2)
    ensures NotFoundDetail(c1) != TradeNotFound
  {
  }

  // ---------------------------------------------------------------------------
  // Which filter a request selects
  // ---------------------------------------------------------------------------

  /** Python truthiness of an optional string: absent and "" are both false. */
  predicate IsGiven(s: Option<string>) {
    s.Some? && s.value != ""
  }

  /** Python truthiness of an optional float: absent and 0.0 are both false. */
  predicate IsNonZero(p: Option<real>) {
    p.Some? && p.value != 0.0
  }

  /** The filter each branch of the if/elif chain would apply if it were
      reached, in the chain's priority order. Each entry depends only on the
      parameters that branch's guard reads. */
  function Candidates(q: Query): (cs: seq<Option<Criterion>>)
    ensures |cs| == 8
  {
    [ if IsGiven(q.search) then Some(Search(q.search.value)) else None,
      if IsGiven(q.assetClass) then Some(AssetClass(q.assetClass.value)) else None,
      if IsGiven(q.tradeType) then Some(TradeType(q.tradeType.value)) else None,
      if IsNonZero(q.minPrice) && q.maxPrice.Some?
        then Some(PriceRange(q.minPrice.value, q.maxPrice.value)) else None,
      if q.minPrice.Some? then Some(MinPrice(q.minPrice.value)) else None,
      if q.maxPrice.Some? then Some(MaxPrice(q.maxPrice.value)) else None,
      if q.start.Some? then Some(Start(q.start.value)) else None,
      if q.end.Some? then Some(End(q.end.value)) else None ]
  }

  /** The first present entry of a priority list. */
  function FirstActive(cs: seq<Option<Criterion>>): (r: Option<Criterion>)
    ensures r.None? <==> forall k :: 0 <= k < |cs| ==> cs[k].None?
    ensures r.Some? ==> exists k :: 0 <= k < |cs| && cs[k] == r &&
                                    forall j :: 0 <= j < k ==> cs[j].None?
  {
    if cs == [] then None
    else if cs[0].Some? then cs[0]
    else
      var r := FirstActive(cs[1..]);
      assert r.Some? ==> exists k :: 1 <= k < |cs| && cs[k] == r &&
                                     forall j :: 0 <= j < k ==> cs[j].None? by {
        if r.Some? {
          var k :| 0 <= k < |cs[1..]| && cs[1..][k] == r &&
                   forall j :: 0 <= j < k ==> cs[1..][j].None?;
          assert cs[k + 1] == r;
          assert forall j :: 0 <= j < k + 1 ==> cs[j].None? by {
            forall j | 0 <= j < k + 1 ensures cs[j].None? {
              if j > 0 { assert cs[j] == cs[1..][j - 1]; }
            }
          }
        }
      }
      r
  }

  lemma FirstActiveCons(c: Option<Criterion>, rest: seq<Option<Criterion>>)
    ensures FirstActive([c] + rest) == if c.Some? then c else FirstActive(rest)
  {
  }

  /** The if/elif chain of guards: the first truthy parameter, in the order
      search, assetClass, tradeType, (minPrice and maxPrice), minPrice,
      maxPrice, start, end, decides the filter. */
  function SelectCriterion(q: Query): (r: Option<Criterion>)
    ensures r.None? <==> !IsGiven(q.search) && !IsGiven(q.assetClass) && !IsGiven(q.tradeType) &&
                         q.minPrice.None? && q.maxPrice.None? && q.start.None? && q.end.None?
  {
    if IsGiven(q.search) then Some(Search(q.search.value))
    else if IsGiven(q.assetClass) then Some(AssetClass(q.assetClass.value))
    else if IsGiven(q.tradeType) then Some(TradeType(q.tradeType.value))
    else if IsNonZero(q.minPrice) && q.maxPrice.Some? then Some(PriceRange(q.minPrice.value, q.maxPrice.value))
    else if q.minPrice.Some? then Some(MinPrice(q.minPrice.value))
    else if q.maxPrice.Some? then Some(MaxPrice(q.maxPrice.value))
    else if q.start.Some? then Some(Start(q.start.value))
    else if q.end.Some? then Some(End(q.end.value))
    else None
  }

  /** The chain of guards is the priority table read top-down: the filter
      applied is the first candidate present, and every candidate before it
      is absent. */
  lemma SelectCriterionIsFirstActive(q: Query)
    ensures SelectCriterion(q) == FirstActive(Candidates(q))
  {
    var cs := Candidates(q);
    var tail7 := [cs[7]] + [];
    var tail6 := [cs[6]] + tail7;
    var tail5 := [cs[5]] + tail6;
    var tail4 := [cs[4]] + tail5;
    var tail3 := [cs[3]] + tail4;
    var tail2 := [cs[2]] + tail3;
    var tail1 := [cs[1]] + tail2;
    assert cs == [cs[0]] + tail1;
    FirstActiveCons(cs[0], tail1);
    FirstActiveCons(cs[1], tail2);
    FirstActiveCons(cs[2], tail3);
    FirstActiveCons(cs[3], tail4);
    FirstActiveCons(cs[4], tail5);
    FirstActiveCons(cs[5], tail6);
    FirstActiveCons(cs[6], tail7);
    FirstActiveCons(cs[7], []);
  }

  // ---------------------------------------------------------------------------
  // Applying a filter
  // ---------------------------------------------------------------------------

  /** `r` is exactly the trades of `ts` that pass `c`, in their original
      order: an order-preserving subsequence that keeps every copy of each
      passing trade and no copy of any other. */
  ghost predicate IsExactFilter(r: seq<Trade>, ts: seq<Trade>, c: Criterion) {
    && IsSubsequence(r, ts)
    && forall x :: multiset(r)[x] == if Holds(c, x) then multiset(ts)[x] else 0
  }

  /** The list comprehension `[trade for trade in ts if <test>]`. */
  function Matching(c: Criterion, ts: seq<Trade>): seq<Trade> {
    if ts == [] then []
    else if Holds(c, ts[0]) then [ts[0]] + Matching(c, ts[1..])
    else Matching(c, ts[1..])
  }

  /** Every trade Matching keeps passes the test. */
  lemma {:induction false} MatchingSound(c: Criterion, ts: seq<Trade>)
    ensures forall i :: 0 <= i < |Matching(c, ts)| ==> Holds(c, Matching(c, ts)[i])
    decreases |ts|
  {
    if ts != [] {
      MatchingSound(c, ts[1..]);
    }
  }

  /** Every trade that passes the test is kept by Matching. */
  lemma {:induction false} MatchingComplete(c: Criterion, ts: seq<Trade>)
    ensures forall i :: 0 <= i < |ts| && Holds(c, ts[i]) ==> ts[i] in Matching(c, ts)
    decreases |ts|
  {
    if ts != [] {
      MatchingComplete(c, ts[1..]);
      assert forall i :: 1 <= i < |ts| ==> ts[i] == ts[1..][i - 1];
    }
  }

  /** Matching keeps the order of the collection. */
  lemma {:induction false} MatchingIsSubsequence(c: Criterion, ts: seq<Trade>)
    ensures IsSubsequence(Matching(c, ts), ts)
    decreases |ts|
  {
    if ts != [] {
      var rest := Matching(c, ts[1..]);
      MatchingIsSubsequence(c, ts[1..]);
      if Holds(c, ts[0]) {
        assert ([ts[0]] + rest)[1..] == rest;
      } else if rest != [] {
        MatchingSound(c, ts[1..]);
        assert Holds(c, rest[0]);
      }
    }
  }

  /** Matching keeps every copy of each passing trade and no copy of any
      other. */
  lemma {:induction false} MatchingMultiset(c: Criterion, ts: seq<Trade>)
    ensures forall x :: multiset(Matching(c, ts))[x] == if Holds(c, x) then multiset(ts)[x] else 0
    decreases |ts|
  {
    if ts != [] {
      var rest := Matching(c, ts[1..]);
      MatchingMultiset(c, ts[1..]);
      assert ts == [ts[0]] + ts[1..];
      assert multiset(ts) == multiset([ts[0]]) + multiset(ts[1..]);
      if Holds(c, ts[0]) {
        assert multiset(Matching(c, ts)) == multiset([ts[0]]) + multiset(rest);
      }
    }
  }

  /** Matching is an exact filter: it keeps the passing trades in their
      original order, with every copy of each and nothing else. */
  lemma MatchingIsExact(c: Criterion, ts: seq<Trade>)
    ensures IsExactFilter(Matching(c, ts), ts, c)
  {
    MatchingIsSubsequence(c, ts);
    MatchingMultiset(c, ts);
  }

  /** A filter keeps nothing exactly when no trade passes its test. */
  lemma {:induction false} MatchingEmptyIff(c: Criterion, ts: seq<Trade>)
    ensures Matching(c, ts) == [] <==> forall i :: 0 <= i < |ts| ==> !Holds(c, ts[i])
    decreases |ts|
  {
    if ts != [] {
      MatchingEmptyIff(c, ts[1..]);
      assert forall i :: 1 <= i < |ts| ==> ts[i] == ts[1..][i - 1];
    }
  }

  /** Filtering a list with a given head: the head is kept exactly when it
      passes, ahead of the filtered rest. */
  lemma MatchingCons(c: Criterion, t: Trade, ts: seq<Trade>)
    ensures Matching(c, [t] + ts) == (if Holds(c, t) then [t] else []) + Matching(c, ts)
  {
  }

  /** The exact-filter property determines the filtered list: Matching is
      the only sequence with it. */
  lemma {:induction false} ExactFilterUnique(c: Criterion, ts: seq<Trade>, r: seq<Trade>)
    requires IsExactFilter(r, ts, c)
    ensures r == Matching(c, ts)
    decreases |ts|
  {
    if ts == [] {
      assert |multiset(r)| == 0 by { SubsequenceMultiset(r, ts); }
    } else {
      var h, tail := ts[0], ts[1..];
      assert ts == [h] + tail;
      if Holds(c, h) {
        assert r != [] by { assert multiset(r)[h] == multiset(ts)[h] > 0; }
        if r[0] != h {
          SubsequenceMultiset(r, tail);
          assert false;
        }
        var r' := r[1..];
        assert r == [h] + r';
        assert IsExactFilter(r', tail, c);
        ExactFilterUnique(c, tail, r');
      } else {
        if r != [] {
          assert multiset(r)[h] == 0;
          assert r[0] in multiset(r);
        }
        assert IsSubsequence(r, tail);
        forall x ensures multiset(r)[x] == if Holds(c, x) then multiset(tail)[x] else 0 {
          if Holds(c, x) { assert x != h; }
        }
        ExactFilterUnique(c, tail, r);
      }
    }
  }

  // ---------------------------------------------------------------------------
  // GET /trades
  // ---------------------------------------------------------------------------

  /** The listing endpoint: at most one filter, chosen by priority; a filter
      that keeps nothing is a 404 naming its category; the closing
      "otherwise everything" fallback is kept as written. */
  function GetTrades(ts: seq<Trade>, q: Query): (r: Result<seq<Trade>>)
    ensures SelectCriterion(q).None? ==> r == Ok(ts)
    ensures SelectCriterion(q).Some? ==>
              (r.NotFound? <==> forall i :: 0 <= i < |ts| ==> !Holds(SelectCriterion(q).value, ts[i]))
    ensures r.NotFound? ==> SelectCriterion(q).Some? && r.detail == NotFoundDetail(SelectCriterion(q).value)
    ensures r.Ok? && SelectCriterion(q).Some? ==>
              && r.value != []
              && (forall i :: 0 <= i < |r.value| ==> Holds(SelectCriterion(q).value, r.value[i]))
              && (forall i :: 0 <= i < |ts| && Holds(SelectCriterion(q).value, ts[i]) ==> ts[i] in r.value)
  {
    match SelectCriterion(q)
    case None =>
      // No filter: the collection itself, which the closing
      // `matching if matching else trades` returns either way.
      Ok(ts)
    case Some(c) =>
      MatchingEmptyIff(c, ts);
      MatchingSound(c, ts);
      MatchingComplete(c, ts);
      var matching := Matching(c, ts);
      if matching == [] then NotFound(NotFoundDetail(c))
      else Ok(if matching != [] then matching else ts)
  }

  /** A successful filtered listing is exactly the passing trades, in
      collection order; with no filter it is the collection itself. */
  lemma GetTradesIsExactFilter(ts: seq<Trade>, q: Query)
    requires GetTrades(ts, q).Ok?
    ensures SelectCriterion(q).Some? ==>
              IsExactFilter(GetTrades(ts, q).value, ts, SelectCriterion(q).value)
    ensures IsSubsequence(GetTrades(ts, q).value, ts)
  {
    if SelectCriterion(q).Some? {
      MatchingIsExact(SelectCriterion(q).value, ts);
    } else {
      SubsequenceReflexive(ts);
    }
  }

  /** The request carrying only the parameters that select `c`. */
  function SoleQuery(c: Criterion): Query {
    match c
    case Search(text) => NoParameters.(search := Some(text))
    case AssetClass(a) => NoParameters.(assetClass := Some(a))
    case TradeType(b) => NoParameters.(tradeType := Some(b))
    case PriceRange(low, high) => NoParameters.(minPrice := Some(low), maxPrice := Some(high))
    case MinPrice(low) => NoParameters.(minPrice := Some(low))
    case MaxPrice(high) => NoParameters.(maxPrice := Some(high))
    case Start(from) => NoParameters.(start := Some(from))
    case End(until) => NoParameters.(end := Some(until))
  }

  /** Every parameter other than the ones deciding the selected filter is
      ignored: the request answers exactly as the request carrying only the
      selected filter's parameters. */
  lemma OnlySelectedParametersMatter(ts: seq<Trade>, q: Query)
    requires SelectCriterion(q).Some?
    ensures GetTrades(ts, q) == GetTrades(ts, SoleQuery(SelectCriterion(q).value))
  {
    var c := SelectCriterion(q).value;
    assert SelectCriterion(SoleQuery(c)) == Some(c);
  }

  /** The listing depends on the request only through the selected filter. */
  lemma SameSelectionSameAnswer(ts: seq<Trade>, q1: Query, q2: Query)
    requires SelectCriterion(q1) == SelectCriterion(q2)
    ensures GetTrades(ts, q1) == GetTrades(ts, q2)
  {
  }

  /** With no parameter in effect the whole collection comes back, in order. */
  lemma NoParametersReturnsAll(ts: seq<Trade>)
    ensures GetTrades(ts, NoParameters) == Ok(ts)
  {
  }

  /** An empty search, assetClass or tradeType string counts as absent. */
  lemma EmptyTextIsAbsent(ts: seq<Trade>, q: Query)
    ensures q.search == Some("") ==> GetTrades(ts, q) == GetTrades(ts, q.(search := None))
    ensures q.assetClass == Some("") ==> GetTrades(ts, q) == GetTrades(ts, q.(assetClass := None))
    ensures q.tradeType == Some("") ==> GetTrades(ts, q) == GetTrades(ts, q.(tradeType := None))
  {
    if q.search == Some("") {
      SameSelectionSameAnswer(ts, q, q.(search := None));
    }
    if q.assetClass == Some("") {
      SameSelectionSameAnswer(ts, q, q.(assetClass := None));
    }
    if q.tradeType == Some("") {
      SameSelectionSameAnswer(ts, q, q.(tradeType := None));
    }
  }

  /** minPrice 0 skips the range branch: maxPrice is then ignored and the
      minPrice-only filter applies. */
  lemma ZeroMinPriceIgnoresMaxPrice(ts: seq<Trade>, q: Query)
    requires q.minPrice == Some(0.0)
    ensures GetTrades(ts, q) == GetTrades(ts, q.(maxPrice := None))
    ensures SelectCriterion(q).Some?
    ensures !SelectCriterion(q).value.PriceRange?
    ensures !IsGiven(q.search) && !IsGiven(q.assetClass) && !IsGiven(q.tradeType) ==>
              SelectCriterion(q) == Some(MinPrice(0.0))
  {
  }

  /** A non-zero minPrice together with a maxPrice selects the range, unless
      search, assetClass or tradeType came first. When some trade is priced
      within it, the answer is exactly the trades priced from minPrice to
      maxPrice, both ends included. */
  lemma RangeIsInclusive(ts: seq<Trade>, q: Query, i: int)
    requires !IsGiven(q.search) && !IsGiven(q.assetClass) && !IsGiven(q.tradeType)
    requires IsNonZero(q.minPrice) && q.maxPrice.Some?
    requires 0 <= i < |ts|
    requires q.minPrice.value <= ts[i].tradeDetails.price <= q.maxPrice.value
    ensures GetTrades(ts, q).Ok?
    ensures forall t :: t in GetTrades(ts, q).value <==>
                        t in ts && q.minPrice.value <= t.tradeDetails.price <= q.maxPrice.value
  {
    var c := PriceRange(q.minPrice.value, q.maxPrice.value);
    assert SelectCriterion(q) == Some(c);
    assert Holds(c, ts[i]);
    GetTradesIsExactFilter(ts, q);
    var r := GetTrades(ts, q).value;
    forall t ensures t in r <==> t in ts && Holds(c, t) {
      assert multiset(r)[t] == if Holds(c, t) then multiset(ts)[t] else 0;
    }
  }

  // ---------------------------------------------------------------------------
  // GET /trades/{trade_id}
  // ---------------------------------------------------------------------------

  /** Scan in collection order; the first trade with exactly this id wins. */
  function GetTradeById(ts: seq<Trade>, tradeId: string): (r: Result<Trade>)
    ensures r.NotFound? <==> forall i :: 0 <= i < |ts| ==> ts[i].tradeId != tradeId
    ensures r.NotFound? ==> r.detail == TradeNotFound
    ensures r.Ok? ==> exists i :: 0 <= i < |ts| && ts[i] == r.value && r.value.tradeId == tradeId &&
                                  forall j :: 0 <= j < i ==> ts[j].tradeId != tradeId
  {
    if ts == [] then NotFound(TradeNotFound)
    else if ts[0].tradeId == tradeId then Ok(ts[0])
    else
      var r := GetTradeById(ts[1..], tradeId);
      assert r.Ok? ==> exists i :: 1 <= i < |ts| && ts[i] == r.value && r.value.tradeId == tradeId &&
                                   forall j :: 0 <= j < i ==> ts[j].tradeId != tradeId by {
        if r.Ok? {
          var i :| 0 <= i < |ts[1..]| && ts[1..][i] == r.value && r.value.tradeId == tradeId &&
                   forall j :: 0 <= j < i ==> ts[1..][j].tradeId != tradeId;
          assert ts[i + 1] == r.value;
          forall j | 0 <= j < i + 1 ensures ts[j].tradeId != tradeId {
            if j > 0 { assert ts[j] == ts[1..][j - 1]; }
          }
        }
      }
      r
  }

  /** No two trades share an id. */
  predicate UniqueIds(ts: seq<Trade>) {
    forall i, j :: 0 <= i < j < |ts| ==> ts[i].tradeId != ts[j].tradeId
  }

  /** When ids are unique, looking up any trade's id returns that trade. */
  lemma LookupFindsEveryTrade(ts: seq<Trade>, i: int)
    requires UniqueIds(ts)
    requires 0 <= i < |ts|
    ensures GetTradeById(ts, ts[i].tradeId) == Ok(ts[i])
  {
  }
}
