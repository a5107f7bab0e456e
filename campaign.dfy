/**
 * The "Campaign Finance" tab: two selectors, each either "All" or one value
 * drawn from the table, and the rows that match both.
 */
module CampaignFinance {
  import opened Records
  import opened Seqs
  import opened Ordering

  /** The first entry of both selectors. */
  const AllChoice: string := "All"

  /** The year selector: "All" or one year (a year never equals the string "All"). */
  datatype YearChoice = AllYears | InYear(year: int)

  /** The mask `Name == official`. */
  function NameIs(official: string): FinanceRecord -> bool
  {
    (r: FinanceRecord) => r.name == official
  }

  /** The mask `Year == year`. */
  function YearIs(year: int): FinanceRecord -> bool
  {
    (r: FinanceRecord) => r.year == year
  }

  /**
   * The official selector is compared with "All" as a string, so "All"
   * means no name filter whichever way it was chosen.
   */
  function FilterFinance(finance: seq<FinanceRecord>, official: string, year: YearChoice): seq<FinanceRecord>
  {
    var byOfficial := if official != AllChoice then Filter(finance, NameIs(official)) else finance;
    if year.InYear? then Filter(byOfficial, YearIs(year.year)) else byOfficial
  }

  /** A row matches the chosen official and the chosen year ("All" matches anything). */
  predicate Matches(r: FinanceRecord, official: string, year: YearChoice)
  {
    (official == AllChoice || r.name == official) && (year.AllYears? || r.year == year.year)
  }

  /** The mask of rows matching both selectors. */
  function MatchesBoth(official: string, year: YearChoice): FinanceRecord -> bool
  {
    (r: FinanceRecord) => Matches(r, official, year)
  }

  /** The two successive filters select the rows matching both selectors. */
  lemma FilterFinanceIsOneMask(finance: seq<FinanceRecord>, official: string, year: YearChoice)
    ensures FilterFinance(finance, official, year) == Filter(finance, MatchesBoth(official, year))
  {
    var both := MatchesBoth(official, year);
    if official != AllChoice && year.InYear? {
      FilterFusion(finance, NameIs(official), YearIs(year.year), both);
    } else if official != AllChoice {
      FilterExtensional(finance, NameIs(official), both);
    } else if year.InYear? {
      FilterExtensional(finance, YearIs(year.year), both);
    } else {
      FilterKeepAll(finance, both);
    }
  }

  /**
   * With both selectors at "All" the table is returned unchanged; otherwise
   * the result is an order-preserving subsequence whose every row matches,
   * and no matching row is dropped.
   */
  lemma FilterFinanceExact(finance: seq<FinanceRecord>, official: string, year: YearChoice)
    ensures official == AllChoice && year.AllYears? ==> FilterFinance(finance, official, year) == finance
    ensures IsSubsequence(FilterFinance(finance, official, year), finance)
    ensures forall x :: x in FilterFinance(finance, official, year) ==> Matches(x, official, year)
    ensures forall x :: multiset(FilterFinance(finance, official, year))[x] ==
                        (if Matches(x, official, year) then multiset(finance)[x] else 0)
  {
    FilterFinanceIsOneMask(finance, official, year);
    FilterExact(finance, MatchesBoth(official, year));
  }

  /** The values of the Name column, in table order. */
  function Names(finance: seq<FinanceRecord>): (names: seq<string>)
    ensures forall n :: n in names <==> exists r :: r in finance && r.name == n
  {
    if finance == [] then [] else [finance[0].name] + Names(finance[1..])
  }

  /** The values of the Year column, in table order. */
  function Years(finance: seq<FinanceRecord>): (years: seq<int>)
    ensures forall y :: y in years <==> exists r :: r in finance && r.year == y
  {
    if finance == [] then [] else [finance[0].year] + Years(finance[1..])
  }

  /** "All" followed by the distinct names, in ascending string order. */
  function OfficialOptions(finance: seq<FinanceRecord>): seq<string>
  {
    [AllChoice] + SortedUnique(Names(finance), LexLess)
  }

  /** "All" followed by the distinct years, latest first. */
  function YearOptions(finance: seq<FinanceRecord>): seq<YearChoice>
  {
    var years := SortedUnique(Years(finance), Greater);
    [AllYears] + seq(|years|, i requires 0 <= i < |years| => InYear(years[i]))
  }

  /** The official options are "All" and then every name of the table once, in ascending order. */
  lemma OfficialOptionsSpec(finance: seq<FinanceRecord>)
    ensures OfficialOptions(finance)[0] == AllChoice
    ensures forall n :: n in OfficialOptions(finance)[1..] <==> exists r :: r in finance && r.name == n
    ensures StrictlySorted(OfficialOptions(finance)[1..], LexLess)
  {
    LexLessIsStrictTotalOrder();
    SortedUniqueSpec(Names(finance), LexLess);
    assert OfficialOptions(finance)[1..] == SortedUnique(Names(finance), LexLess);
  }

  /** The year options are "All" and then every year of the table once, latest first. */
  lemma YearOptionsSpec(finance: seq<FinanceRecord>)
    ensures YearOptions(finance)[0] == AllYears
    ensures forall i :: 1 <= i < |YearOptions(finance)| ==> YearOptions(finance)[i].InYear?
    ensures forall y :: InYear(y) in YearOptions(finance) <==> exists r :: r in finance && r.year == y
    ensures forall i, j :: 1 <= i < j < |YearOptions(finance)| ==>
                          YearOptions(finance)[i].year > YearOptions(finance)[j].year
  {
    var years := SortedUnique(Years(finance), Greater);
    GreaterIsStrictTotalOrder();
    SortedUniqueSpec(Years(finance), Greater);
    var opts := YearOptions(finance);
    forall y ensures InYear(y) in opts <==> y in years {
      if InYear(y) in opts {
        var k :| 0 <= k < |opts| && opts[k] == InYear(y);
        assert years[k - 1] == y;
      }
      if y in years {
        var k :| 0 <= k < |years| && years[k] == y;
        assert opts[k + 1] == InYear(y);
      }
    }
  }
}
