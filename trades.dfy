/** The trade record and its free-text search predicate (`Trade.matches_search`). */
module Trades {

  datatype Option<+T> = None | Some(value: T)

  /** Direction, price and size of a trade. Prices are only ever compared,
      so they are modelled as reals. */
  datatype TradeDetails = TradeDetails(buySellIndicator: string, price: real, quantity: int)

  /** One trade record. The timestamp is an integer whose order is the
      chronological order (only `<=` and `>=` are applied to it). */
  datatype Trade = Trade(
    assetClass: string,
    counterparty: string,
    instrumentId: string,
    instrumentName: string,
    tradeDateTime: int,
    tradeDetails: TradeDetails,
    tradeId: string,
    trader: string)

  // ---------------------------------------------------------------------------
  // Lower-casing (ASCII letters only)
  // ---------------------------------------------------------------------------

  predicate IsUpper(c: char) {
    'A' <= c <= 'Z'
  }

  function LowerChar(c: char): (r: char)
    ensures !IsUpper(r)
    ensures IsUpper(c) ==> r as int == c as int + ('a' as int - 'A' as int)
    ensures !IsUpper(c) ==> r == c
  {
    if IsUpper(c) then (c as int - 'A' as int + 'a' as int) as char else c
  }

  /** `str.lower()`, restricted to the ASCII letters. */
  function Lower(s: string): (r: string)
    ensures |r| == |s|
    ensures forall i :: 0 <= i < |s| ==> r[i] == LowerChar(s[i])
  {
    seq(|s|, i requires 0 <= i < |s| => LowerChar(s[i]))
  }

  /** Lower-casing twice is lower-casing once. */
  lemma LowerIdempotent(s: string)
    ensures Lower(Lower(s)) == Lower(s)
  {
  }

  /** Lower-casing commutes with taking a slice. */
  lemma LowerSlice(s: string, i: int, j: int)
    requires 0 <= i <= j <= |s|
    ensures Lower(s)[i..j] == Lower(s[i..j])
  {
  }

  // ---------------------------------------------------------------------------
  // Substring test (Python's `needle in haystack` on strings)
  // ---------------------------------------------------------------------------

  /** `needle` occurs in `hay` starting at position `i`. */
  ghost predicate OccursAt(needle: string, hay: string, i: int) {
    0 <= i && i + |needle| <= |hay| && hay[i..i + |needle|] == needle
  }

  ghost predicate IsSubstring(needle: string, hay: string) {
    exists i :: OccursAt(needle, hay, i)
  }

  /** Scans `hay` left to right for an occurrence of `needle`. */
  function Contains(needle: string, hay: string): (r: bool)
    ensures r <==> IsSubstring(needle, hay)
    decreases |hay|
  {
    if |needle| > |hay| then
      assert forall i :: !OccursAt(needle, hay, i);
      false
    else if hay[..|needle|] == needle then
      assert OccursAt(needle, hay, 0);
      true
    else
      var rest := Contains(needle, hay[1..]);
      assert forall i :: OccursAt(needle, hay[1..], i) <==> OccursAt(needle, hay, i + 1) by {
        forall i ensures OccursAt(needle, hay[1..], i) <==> OccursAt(needle, hay, i + 1) {
          if 0 <= i && i + |needle| <= |hay[1..]| {
            assert hay[1..][i..i + |needle|] == hay[i + 1..i + 1 + |needle|];
          }
        }
      }
      assert !OccursAt(needle, hay, 0);
      assert rest ==> OccursAt(needle, hay, ContainsWitness(needle, hay[1..]) + 1);
      assert !rest ==> forall i :: !OccursAt(needle, hay, i) by {
        if !rest {
          forall i ensures !OccursAt(needle, hay, i) {
            if i >= 1 {
              assert !OccursAt(needle, hay[1..], i - 1);
            }
          }
        }
      }
      rest
  }

  /** A text is not found, in any letter case, in a string that lacks one of
      its letters in every case. */
  lemma AbsentLetterNotFound(needle: string, hay: string, k: int)
    requires 0 <= k < |needle|
    requires forall i :: 0 <= i < |hay| ==> LowerChar(hay[i]) != LowerChar(needle[k])
    ensures !IsSubstring(Lower(needle), Lower(hay))
  {
    forall i ensures !OccursAt(Lower(needle), Lower(hay), i) {
      if 0 <= i && i + |needle| <= |hay| {
        assert Lower(hay)[i..i + |needle|][k] == LowerChar(hay[i + k]);
      }
    }
  }

  /** A position at which `needle` occurs in `hay`, when it occurs at all. */
  ghost function ContainsWitness(needle: string, hay: string): (i: int)
    requires IsSubstring(needle, hay)
    ensures OccursAt(needle, hay, i)
  {
    var i :| OccursAt(needle, hay, i); i
  }

  // ---------------------------------------------------------------------------
  // Trade.matches_search
  // ---------------------------------------------------------------------------

  /** The four fields the free-text search looks at, in the order it tries them. */
  function SearchFields(t: Trade): seq<string> {
    [t.counterparty, t.instrumentId, t.instrumentName, t.trader]
  }

  /** Case-insensitive substring search over counterparty, instrument id,
      instrument name and trader, tried in that order. */
  function MatchesSearch(t: Trade, searchText: string): (r: bool)
    ensures r <==> exists k :: 0 <= k < |SearchFields(t)| &&
                             IsSubstring(Lower(searchText), Lower(SearchFields(t)[k]))
  {
    var needle := Lower(searchText);
    var fields := SearchFields(t);
    assert fields[0] == t.counterparty && fields[1] == t.instrumentId;
    assert fields[2] == t.instrumentName && fields[3] == t.trader;
    if Contains(needle, Lower(t.counterparty)) then true
    else if Contains(needle, Lower(t.instrumentId)) then true
    else if Contains(needle, Lower(t.instrumentName)) then true
    else if Contains(needle, Lower(t.trader)) then true
    else false
  }

  /** The search is insensitive to the case of the search text. */
  lemma MatchesSearchIgnoresCase(t: Trade, searchText: string)
    ensures MatchesSearch(t, searchText) == MatchesSearch(t, Lower(searchText))
  {
    LowerIdempotent(searchText);
  }

  /** Any piece of any searched field, typed in any case, finds the trade. */
  lemma MatchesSearchOfFieldSlice(t: Trade, searchText: string, k: int, i: int, j: int)
    requires 0 <= k < 4
    requires 0 <= i <= j <= |SearchFields(t)[k]|
    requires Lower(searchText) == Lower(SearchFields(t)[k][i..j])
    ensures MatchesSearch(t, searchText)
  {
    var field := SearchFields(t)[k];
    LowerSlice(field, i, j);
    assert OccursAt(Lower(searchText), Lower(field), i);
  }

  /** The empty search text matches every trade (Python: `"" in s` holds). */
  lemma MatchesEmptySearch(t: Trade)
    ensures MatchesSearch(t, "")
  {
  }
}
