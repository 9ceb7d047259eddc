/** The five trades the service starts with, and what its queries answer on
    them. Timestamps are written as the integer YYYYMMDDhhmmss, which orders
    them chronologically. */
module SeedTrades {
  import opened Trades
  import opened TradeQuery

  const T1: Trade := Trade("Equity", "HDFC Bank", "RELIANCE", "Reliance Industries Ltd.",
                           20230423113000, TradeDetails("BUY", 1000.0, 100), "1", "Rajesh")
  const T2: Trade := Trade("Commodity", "SBI Bank", "GOLD", "Gold",
                           20230424150000, TradeDetails("SELL", 3000.0, 10), "2", "Suresh")
  const T3: Trade := Trade("Currency", "SBI Bank", "INR", "Indian Rupee",
                           20230425093000, TradeDetails("BUY", 2000.0, 1000), "3", "Amit")
  const T4: Trade := Trade("Stocks", "Kotak Bank", "NIFTY50", "Nifty 50 Index",
                           20230426140000, TradeDetails("SELL", 1500.0, 10), "4", "Vikram")
  const T5: Trade := Trade("Bond", "Axis Bank", "SBIN", "State Bank of India Bond",
                           20230427110000, TradeDetails("BUY", 1200.0, 100), "5", "Manish Singh")

  const Seed: seq<Trade> := [T1, T2, T3, T4, T5]

  /** Ids in the seed collection are unique, so every seed trade can be
      fetched by its id. */
  lemma SeedLookup(i: int)
    requires 0 <= i < |Seed|
    ensures GetTradeById(Seed, Seed[i].tradeId) == Ok(Seed[i])
  {
  }

  lemma SeedLookupUnknown()
    ensures GetTradeById(Seed, "6") == NotFound("Trade not found")
  {
  }

  lemma SeedAssetClassFilter()
    ensures Matching(AssetClass("Equity"), Seed) == [T1]
  {
    MatchingCons(AssetClass("Equity"), T5, []);
    assert [T5] == [T5] + [];
    MatchingCons(AssetClass("Equity"), T4, [T5]);
    MatchingCons(AssetClass("Equity"), T3, [T4, T5]);
    MatchingCons(AssetClass("Equity"), T2, [T3, T4, T5]);
    MatchingCons(AssetClass("Equity"), T1, [T2, T3, T4, T5]);
  }

  /** assetClass=Equity keeps only trade 1. */
  lemma SeedAssetClass()
    ensures GetTrades(Seed, NoParameters.(assetClass := Some("Equity"))) == Ok([T1])
  {
    SeedAssetClassFilter();
    assert SelectCriterion(NoParameters.(assetClass := Some("Equity"))) == Some(AssetClass("Equity"));
  }

  lemma SeedTradeTypeFilter()
    ensures Matching(TradeType("SELL"), Seed) == [T2, T4]
  {
    MatchingCons(TradeType("SELL"), T5, []);
    assert [T5] == [T5] + [];
    MatchingCons(TradeType("SELL"), T4, [T5]);
    MatchingCons(TradeType("SELL"), T3, [T4, T5]);
    MatchingCons(TradeType("SELL"), T2, [T3, T4, T5]);
    MatchingCons(TradeType("SELL"), T1, [T2, T3, T4, T5]);
  }

  /** tradeType=SELL keeps trades 2 and 4, in collection order. */
  lemma SeedTradeType()
    ensures GetTrades(Seed, NoParameters.(tradeType := Some("SELL"))) == Ok([T2, T4])
  {
    SeedTradeTypeFilter();
    assert SelectCriterion(NoParameters.(tradeType := Some("SELL"))) == Some(TradeType("SELL"));
  }

  lemma SeedPriceRangeFilter()
    ensures Matching(PriceRange(1200.0, 2000.0), Seed) == [T3, T4, T5]
  {
    MatchingCons(PriceRange(1200.0, 2000.0), T5, []);
    assert [T5] == [T5] + [];
    MatchingCons(PriceRange(1200.0, 2000.0), T4, [T5]);
    MatchingCons(PriceRange(1200.0, 2000.0), T3, [T4, T5]);
    MatchingCons(PriceRange(1200.0, 2000.0), T2, [T3, T4, T5]);
    MatchingCons(PriceRange(1200.0, 2000.0), T1, [T2, T3, T4, T5]);
  }

  /** The price range is inclusive at both ends: 1200 and 2000 are kept. */
  lemma SeedPriceRange()
    ensures GetTrades(Seed, NoParameters.(minPrice := Some(1200.0), maxPrice := Some(2000.0))) == Ok([T3, T4, T5])
  {
    SeedPriceRangeFilter();
    assert SelectCriterion(NoParameters.(minPrice := Some(1200.0), maxPrice := Some(2000.0))) == Some(PriceRange(1200.0, 2000.0));
  }

  lemma SeedZeroMinPriceFilter()
    ensures Matching(MinPrice(0.0), Seed) == Seed
  {
    MatchingCons(MinPrice(0.0), T5, []);
    assert [T5] == [T5] + [];
    MatchingCons(MinPrice(0.0), T4, [T5]);
    MatchingCons(MinPrice(0.0), T3, [T4, T5]);
    MatchingCons(MinPrice(0.0), T2, [T3, T4, T5]);
    MatchingCons(MinPrice(0.0), T1, [T2, T3, T4, T5]);
  }

  /** minPrice=0 makes maxPrice be ignored: trade 2 (price 3000) comes back. */
  lemma SeedZeroMinPrice()
    ensures GetTrades(Seed, NoParameters.(minPrice := Some(0.0), maxPrice := Some(1500.0))) == Ok(Seed)
  {
    SeedZeroMinPriceFilter();
    assert SelectCriterion(NoParameters.(minPrice := Some(0.0), maxPrice := Some(1500.0))) == Some(MinPrice(0.0));
  }

  lemma SeedStartFilter()
    ensures Matching(Start(20230425000000), Seed) == [T3, T4, T5]
  {
    MatchingCons(Start(20230425000000), T5, []);
    assert [T5] == [T5] + [];
    MatchingCons(Start(20230425000000), T4, [T5]);
    MatchingCons(Start(20230425000000), T3, [T4, T5]);
    MatchingCons(Start(20230425000000), T2, [T3, T4, T5]);
    MatchingCons(Start(20230425000000), T1, [T2, T3, T4, T5]);
  }

  /** start=2023-04-25T00:00:00 keeps trades 3, 4 and 5. */
  lemma SeedStart()
    ensures GetTrades(Seed, NoParameters.(start := Some(20230425000000))) == Ok([T3, T4, T5])
  {
    SeedStartFilter();
    assert SelectCriterion(NoParameters.(start := Some(20230425000000))) == Some(Start(20230425000000));
  }

  lemma SeedEndNotFoundFilter()
    ensures Matching(End(20230101000000), Seed) == []
  {
    MatchingCons(End(20230101000000), T5, []);
    assert [T5] == [T5] + [];
    MatchingCons(End(20230101000000), T4, [T5]);
    MatchingCons(End(20230101000000), T3, [T4, T5]);
    MatchingCons(End(20230101000000), T2, [T3, T4, T5]);
    MatchingCons(End(20230101000000), T1, [T2, T3, T4, T5]);
  }

  /** An end date before every trade is the end filter's 404. */
  lemma SeedEndNotFound()
    ensures GetTrades(Seed, NoParameters.(end := Some(20230101000000))) == NotFound("No trades match the end criteria")
  {
    SeedEndNotFoundFilter();
    assert SelectCriterion(NoParameters.(end := Some(20230101000000))) == Some(End(20230101000000));
  }

  /** None of trade 1's searched fields contains "sbi" in any case: the
      counterparty has no "s", the other three have no "b". */
  lemma T1MissesSbi()
    ensures !MatchesSearch(T1, "sbi")
  {
    AbsentLetterNotFound("sbi", "HDFC Bank", 0);
    AbsentLetterNotFound("sbi", "RELIANCE", 1);
    AbsentLetterNotFound("sbi", "Reliance Industries Ltd.", 1);
    AbsentLetterNotFound("sbi", "Rajesh", 1);
    assert SearchFields(T1) == [T1.counterparty, T1.instrumentId, T1.instrumentName, T1.trader];
  }

  /** None of trade 4's searched fields contains "sbi" in any case: none of
      them has an "s". */
  lemma T4MissesSbi()
    ensures !MatchesSearch(T4, "sbi")
  {
    AbsentLetterNotFound("sbi", "Kotak Bank", 0);
    AbsentLetterNotFound("sbi", "NIFTY50", 0);
    AbsentLetterNotFound("sbi", "Nifty 50 Index", 0);
    AbsentLetterNotFound("sbi", "Vikram", 0);
    assert SearchFields(T4) == [T4.counterparty, T4.instrumentId, T4.instrumentName, T4.trader];
  }

  /** Trades 2 and 3 match "sbi" through their counterparty "SBI Bank". */
  lemma SbiBankMatchesSbi()
    ensures MatchesSearch(T2, "sbi") && MatchesSearch(T3, "sbi")
  {
    assert Lower("SBI") == "sbi";
    assert Lower("sbi") == "sbi";
    assert SearchFields(T2)[0][0..3] == "SBI";
    MatchesSearchOfFieldSlice(T2, "sbi", 0, 0, 3);
    assert SearchFields(T3)[0][0..3] == "SBI";
    MatchesSearchOfFieldSlice(T3, "sbi", 0, 0, 3);
  }

  /** A filter that keeps trades 2, 3 and 5 and drops trades 1 and 4. */
  lemma KeepsSecondThirdFifth(c: Criterion)
    requires !Holds(c, T1) && Holds(c, T2) && Holds(c, T3) && !Holds(c, T4) && Holds(c, T5)
    ensures Matching(c, Seed) == [T2, T3, T5]
  {
    MatchingCons(c, T5, []);
    assert [T5] == [T5] + [];
    MatchingCons(c, T4, [T5]);
    MatchingCons(c, T3, [T4, T5]);
    MatchingCons(c, T2, [T3, T4, T5]);
    MatchingCons(c, T1, [T2, T3, T4, T5]);
  }

  lemma SeedSearchFilter()
    ensures Matching(Search("sbi"), Seed) == [T2, T3, T5]
  {
    SbiBankMatchesSbi();
    SeedSearchMatchesSbin();
    T1MissesSbi();
    T4MissesSbi();
    KeepsSecondThirdFifth(Search("sbi"));
  }

  /** search=sbi returns trades 2 and 3 (counterparty "SBI Bank") and also
      trade 5, whose instrument id is "SBIN". */
  lemma SeedSearch()
    ensures GetTrades(Seed, NoParameters.(search := Some("sbi"))) == Ok([T2, T3, T5])
  {
    SeedSearchFilter();
    assert SelectCriterion(NoParameters.(search := Some("sbi"))) == Some(Search("sbi"));
  }

  /** "sbi" is found case-insensitively in trade 5's instrument id "SBIN". */
  lemma SeedSearchMatchesSbin()
    ensures MatchesSearch(T5, "sbi")
  {
    assert SearchFields(T5)[1][0..3] == "SBI";
    assert Lower("SBI") == "sbi";
    assert Lower("sbi") == "sbi";
    MatchesSearchOfFieldSlice(T5, "sbi", 1, 0, 3);
  }
}
