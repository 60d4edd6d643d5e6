/**
 * The catalog page's view derivation: the loaded items, narrowed by the selected filter
 * and ordered by the selected sort, recomputed as a fresh sequence whenever the items or
 * either selection changes.
 */
module Home {
  import opened Options
  import opened Seqs
  import opened Sorting
  import opened Trick
  import opened Numerals

  /** The "rare" filter's least rarity, 8, in tenths. */
  const RareFilterMinimum := 80
  /** The "popular" filter's least popularity, 8, in tenths. */
  const PopularFilterMinimum := 80
  /** The "classic" filter keeps years strictly before this one. */
  const ClassicBefore := 1990

  /** `localeCompare` for the page's locale: `(a, b) -> negative | 0 | positive`. */
  type Collation = (string, string) -> int

  /** The year of an item as `parseInt` reads it. */
  function YearOf(t: Item): Option<int> {
    ParseInt(t.yearReleased)
  }

  /** Whether the filter lets `t` through (a `NaN` year compares false, so it is dropped). */
  predicate Keep(f: FilterOption, t: Item) {
    match f
    case All => true
    case Rare => t.rarityScore >= RareFilterMinimum
    case Popular => t.popularityScore >= PopularFilterMinimum
    case Classic => YearOf(t).Some? && YearOf(t).value < ClassicBefore
  }

  function Keeper(f: FilterOption): Item -> bool {
    t => Keep(f, t)
  }

  /**
   * The year comparator, newest first.  A year that does not parse sorts after every year
   * that does; two such years tie.
   */
  function CompareYears(a: Option<int>, b: Option<int>): int {
    match (a, b)
    case (Some(x), Some(y)) => y - x
    case (Some(_), None) => -1
    case (None, Some(_)) => 1
    case (None, None) => 0
  }

  /** The comparator each sort mode hands to `Array.prototype.sort`. */
  function Comparator(s: SortOption, collate: Collation): (Item, Item) -> int {
    match s
    case Combined => (a: Item, b: Item) => b.combinedScore - a.combinedScore
    case Popularity => (a: Item, b: Item) => b.popularityScore - a.popularityScore
    case Rarity => (a: Item, b: Item) => b.rarityScore - a.rarityScore
    case Year => (a: Item, b: Item) => CompareYears(YearOf(a), YearOf(b))
    case Name => (a: Item, b: Item) => collate(a.name, b.name)
  }

  /** Every sort mode's comparator is consistent, given a consistent collation. */
  lemma ComparatorConsistent(s: SortOption, collate: Collation)
    requires Consistent(collate)
    ensures Consistent(Comparator(s, collate))
  {
    var cmp := Comparator(s, collate);
    match s {
      case Combined =>
      case Popularity =>
      case Rarity =>
      case Year =>
        forall a, b, c
          ensures TransitiveAt(cmp, a, b, c)
        {
          CompareYearsTransitive(YearOf(a), YearOf(b), YearOf(c));
        }
      case Name =>
        forall a, b
          ensures AntisymmetricAt(cmp, a, b)
        {
          assert AntisymmetricAt(collate, a.name, b.name);
        }
        forall a, b, c
          ensures TransitiveAt(cmp, a, b, c)
        {
          assert TransitiveAt(collate, a.name, b.name, c.name);
        }
    }
  }

  lemma CompareYearsTransitive(x: Option<int>, y: Option<int>, z: Option<int>)
    ensures CompareYears(x, y) <= 0 && CompareYears(y, z) <= 0 ==> CompareYears(x, z) <= 0
  {
  }

  /**
   * The displayed list: the items the filter keeps, stably sorted by the selected
   * comparator.  The input sequence is a value and is left as it was.
   */
  function Derive(items: seq<Item>, filterBy: FilterOption, sortBy: SortOption, collate: Collation): (r: seq<Item>)
    requires Consistent(collate)
    ensures IsStableSortOf(Comparator(sortBy, collate), r, Filter(items, Keeper(filterBy)))
    ensures forall t :: t in r <==> t in items && Keep(filterBy, t)
    ensures |r| <= |items|
  {
    var kept := Filter(items, Keeper(filterBy));
    ComparatorConsistent(sortBy, collate);
    SortByIsStableSort(Comparator(sortBy, collate), kept);
    var r := SortBy(Comparator(sortBy, collate), kept);
    FilterMembers(items, Keeper(filterBy));
    assert forall t :: (t in r <==> t in multiset(r)) && (t in kept <==> t in multiset(kept));
    r
  }

  /** The filtered list, before sorting, keeps the survivors in their loaded order. */
  lemma FilterKeepsOrder(items: seq<Item>, filterBy: FilterOption)
    ensures IsSubsequence(Filter(items, Keeper(filterBy)), items)
    ensures forall t :: multiset(Filter(items, Keeper(filterBy)))[t] == if Keep(filterBy, t) then multiset(items)[t] else 0
  {
    FilterIsSubsequence(items, Keeper(filterBy));
    FilterCount(items, Keeper(filterBy));
  }

  /** With no filter the derived list is a reordering of everything loaded. */
  lemma DeriveAllIsPermutation(items: seq<Item>, sortBy: SortOption, collate: Collation)
    requires Consistent(collate)
    ensures multiset(Derive(items, All, sortBy, collate)) == multiset(items)
    ensures |Derive(items, All, sortBy, collate)| == |items|
  {
    FilterKeepsAll(items, Keeper(All));
    var r := Derive(items, All, sortBy, collate);
    assert |r| == |multiset(r)|;
  }

  /** The derived list is in the order the selected sort promises. */
  lemma DeriveOrder(items: seq<Item>, filterBy: FilterOption, sortBy: SortOption, collate: Collation)
    requires Consistent(collate)
    ensures var r := Derive(items, filterBy, sortBy, collate);
      forall i, j :: 0 <= i < j < |r| ==>
        && (sortBy == Combined ==> r[i].combinedScore >= r[j].combinedScore)
        && (sortBy == Popularity ==> r[i].popularityScore >= r[j].popularityScore)
        && (sortBy == Rarity ==> r[i].rarityScore >= r[j].rarityScore)
        && (sortBy == Year && YearOf(r[i]).Some? && YearOf(r[j]).Some? ==> YearOf(r[i]).value >= YearOf(r[j]).value)
        && (sortBy == Year && YearOf(r[i]).None? ==> YearOf(r[j]).None?)
        && (sortBy == Name ==> collate(r[i].name, r[j].name) <= 0)
  {
    var r := Derive(items, filterBy, sortBy, collate);
    var cmp := Comparator(sortBy, collate);
    forall i, j | 0 <= i < j < |r|
      ensures cmp(r[i], r[j]) <= 0
    {
    }
  }

  /** Two tied items, as the sort sees them, keep their relative order from the filtered list. */
  lemma DeriveIsStable(items: seq<Item>, filterBy: FilterOption, sortBy: SortOption, collate: Collation, k: Item)
    requires Consistent(collate)
    ensures Run(Comparator(sortBy, collate), Derive(items, filterBy, sortBy, collate), k)
         == Run(Comparator(sortBy, collate), Filter(items, Keeper(filterBy)), k)
  {
  }

  /** Every stable sort of the filtered items yields the derived list. */
  lemma DeriveIsTheStableSort(items: seq<Item>, filterBy: FilterOption, sortBy: SortOption, collate: Collation, out: seq<Item>)
    requires Consistent(collate)
    requires IsStableSortOf(Comparator(sortBy, collate), out, Filter(items, Keeper(filterBy)))
    ensures out == Derive(items, filterBy, sortBy, collate)
  {
    ComparatorConsistent(sortBy, collate);
    StableSortUnique(Comparator(sortBy, collate), Filter(items, Keeper(filterBy)), out, Derive(items, filterBy, sortBy, collate));
  }

  /** With no filter, the view is the one stable sort of everything loaded. */
  lemma UnfilteredIsStableSort(items: seq<Item>, sortBy: SortOption, collate: Collation, out: seq<Item>)
    requires Consistent(collate)
    requires IsStableSortOf(Comparator(sortBy, collate), out, items)
    ensures Derive(items, All, sortBy, collate) == out
  {
    FilterKeepsAll(items, Keeper(All));
    DeriveIsTheStableSort(items, All, sortBy, collate, out);
  }

  /** Deriving the view of a derived view changes nothing. */
  lemma DeriveIdempotent(items: seq<Item>, filterBy: FilterOption, sortBy: SortOption, collate: Collation)
    requires Consistent(collate)
    ensures var r := Derive(items, filterBy, sortBy, collate);
      Derive(r, filterBy, sortBy, collate) == r
  {
    var r := Derive(items, filterBy, sortBy, collate);
    assert forall i :: 0 <= i < |r| ==> r[i] in r;
    FilterKeepsAll(r, Keeper(filterBy));
    ComparatorConsistent(sortBy, collate);
    SortBySorted(Comparator(sortBy, collate), r);
  }

  /** A year written as a decimal numeral reads as that number. */
  lemma NumeralYear(t: Item, n: nat)
    requires t.yearReleased == DecimalText(n)
    ensures YearOf(t) == Some(n)
  {
    ParseDecimal(n, "");
    assert t.yearReleased + "" == t.yearReleased;
  }

  /** A four-digit year reads as its number. */
  lemma FourDigitYear(t: Item, n: nat)
    requires 1000 <= n < 10000
    requires t.yearReleased == FourDigits(n)
    ensures YearOf(t) == Some(n)
  {
    FourDigitNumeral(n);
    NumeralYear(t, n);
  }

  /** A year of 1989 is classic, 1990 is not, and a year without digits never is. */
  lemma ClassicBoundary(t: Item)
    ensures t.yearReleased == "1989" ==> Keep(Classic, t)
    ensures t.yearReleased == "1990" ==> !Keep(Classic, t)
    ensures (forall i :: 0 <= i < |t.yearReleased| ==> !IsDigit(t.yearReleased[i], 10)) ==> !Keep(Classic, t)
  {
    if t.yearReleased == "1989" {
      FourDigitYear(t, 1989);
    }
    if t.yearReleased == "1990" {
      FourDigitYear(t, 1990);
    }
    if forall i :: 0 <= i < |t.yearReleased| ==> !IsDigit(t.yearReleased[i], 10) {
      NoDigitsNoNumber(t.yearReleased);
    }
  }

  /** Of an item with rarity 9 and one with rarity 2, the rare view holds just the first. */
  lemma RareExample(a: Item, b: Item, collate: Collation)
    requires Consistent(collate)
    requires a.rarityScore == 90 && b.rarityScore == 20
    ensures Derive([a, b], Rare, Combined, collate) == [a]
  {
    assert Filter([a, b], Keeper(Rare)) == [a] by {
      assert [a, b][1..] == [b];
      assert [b][1..] == [];
    }
  }

  /** The text "1985" reads as 1985 and "1995" as 1995. */
  lemma ExampleYears(a: Item, b: Item)
    requires a.yearReleased == "1985" && b.yearReleased == "1995"
    ensures YearOf(a) == Some(1985) && YearOf(b) == Some(1995)
  {
    assert a.yearReleased == FourDigits(1985) && b.yearReleased == FourDigits(1995);
    FourDigitYear(a, 1985);
    FourDigitYear(b, 1995);
  }

  /** Sorting an item from 1985 and one from 1995 newest first puts the 1995 one ahead. */
  lemma YearExample(a: Item, b: Item, collate: Collation)
    requires Consistent(collate)
    requires a.yearReleased == "1985" && b.yearReleased == "1995"
    ensures Derive([a, b], All, Year, collate) == [b, a]
  {
    ExampleYears(a, b);
    NewerFirst(a, b, collate);
  }

  /** Of two items with readable years, the newer one comes first. */
  lemma NewerFirst(a: Item, b: Item, collate: Collation)
    requires Consistent(collate)
    requires YearOf(a).Some? && YearOf(b).Some? && YearOf(a).value < YearOf(b).value
    ensures Derive([a, b], All, Year, collate) == [b, a]
  {
    YearComparatorNewerFirst(a, b, collate);
    PairSwaps(a, b, Year, collate);
  }

  /** Two items the comparator puts in the other order come out swapped. */
  lemma PairSwaps(a: Item, b: Item, sortBy: SortOption, collate: Collation)
    requires Consistent(collate)
    requires Comparator(sortBy, collate)(b, a) < 0
    ensures Derive([a, b], All, sortBy, collate) == [b, a]
  {
    ComparatorConsistent(sortBy, collate);
    SwapPair(Comparator(sortBy, collate), a, b);
    UnfilteredIsStableSort([a, b], sortBy, collate, [b, a]);
  }

  /** The year comparator puts the newer of two readable years first. */
  lemma YearComparatorNewerFirst(a: Item, b: Item, collate: Collation)
    requires YearOf(a).Some? && YearOf(b).Some? && YearOf(a).value < YearOf(b).value
    ensures Comparator(Year, collate)(b, a) < 0
  {
    YearComparatorApplies(b, a, collate);
  }

  /**
   * The year comparator as written: `parseInt(b) - parseInt(a)`, where a `NaN` difference
   * counts as a tie (`Array.prototype.sort` reads a `NaN` comparison result as 0).
   */
  function CompareYearsAsWritten(a: Item, b: Item): int {
    match (YearOf(a), YearOf(b))
    case (Some(x), Some(y)) => y - x
    case _ => 0
  }

  /**
   * For items from "1990", "" and "2000" the comparator as written ties the blank year
   * with both others yet puts 2000 before 1990, so it is not consistent and the order
   * `Array.prototype.sort` returns is left to the engine.
   */
  lemma YearComparatorAsWrittenInconsistent(a: Item, b: Item, c: Item)
    requires a.yearReleased == "1990" && b.yearReleased == "" && c.yearReleased == "2000"
    ensures CompareYearsAsWritten(a, b) == 0 && CompareYearsAsWritten(b, c) == 0
    ensures CompareYearsAsWritten(a, c) > 0
    ensures !Consistent(CompareYearsAsWritten)
  {
    assert a.yearReleased == FourDigits(1990) && c.yearReleased == FourDigits(2000);
    FourDigitYear(a, 1990);
    FourDigitYear(c, 2000);
    NoDigitsNoNumber(b.yearReleased);
    NotTransitive(a, b, c);
  }

  /** A `NaN` year between 1990 and 2000 ties with both, though 2000 comes before 1990. */
  lemma NotTransitive(a: Item, b: Item, c: Item)
    ensures YearOf(a) == Some(1990) && YearOf(b) == None && YearOf(c) == Some(2000) ==>
      && CompareYearsAsWritten(a, b) == 0 && CompareYearsAsWritten(b, c) == 0
      && CompareYearsAsWritten(a, c) > 0
      && !TransitiveAt(CompareYearsAsWritten, a, b, c)
  {
  }

  /** Every item of `s` has a year that `parseInt` reads. */
  predicate YearsReadable(s: seq<Item>) {
    forall i :: 0 <= i < |s| ==> YearOf(s[i]).Some?
  }

  /**
   * Where every kept item's year reads, the year view is also a stable sort under the
   * comparator as written: sorted by it, a permutation of the filtered items, and every
   * readable year's ties kept in their filtered order.
   */
  lemma DeriveYearAsWritten(items: seq<Item>, filterBy: FilterOption, collate: Collation)
    requires Consistent(collate)
    requires YearsReadable(Filter(items, Keeper(filterBy)))
    ensures var r := Derive(items, filterBy, Year, collate);
      && Sorted(CompareYearsAsWritten, r)
      && multiset(r) == multiset(Filter(items, Keeper(filterBy)))
      && forall k :: YearOf(k).Some? ==>
           Run(CompareYearsAsWritten, r, k) == Run(CompareYearsAsWritten, Filter(items, Keeper(filterBy)), k)
  {
    var r := Derive(items, filterBy, Year, collate);
    var kept := Filter(items, Keeper(filterBy));
    ViewYearsReadable(items, filterBy, collate);
    SortedAsWritten(r, collate);
    forall k | YearOf(k).Some?
      ensures Run(CompareYearsAsWritten, r, k) == Run(CompareYearsAsWritten, kept, k)
    {
      RunsAgreeWhereYearsRead(r, collate, k);
      RunsAgreeWhereYearsRead(kept, collate, k);
      DeriveIsStable(items, filterBy, Year, collate, k);
    }
  }

  /** Every item the classic filter keeps has a readable year. */
  lemma ClassicYearsReadable(items: seq<Item>)
    ensures YearsReadable(Filter(items, Keeper(Classic)))
  {
    var kept := Filter(items, Keeper(Classic));
    FilterMembers(items, Keeper(Classic));
    forall i | 0 <= i < |kept|
      ensures YearOf(kept[i]).Some?
    {
      assert kept[i] in kept;
    }
  }

  /** The view holds exactly the filtered items, so their years read too. */
  lemma ViewYearsReadable(items: seq<Item>, filterBy: FilterOption, collate: Collation)
    requires Consistent(collate)
    requires YearsReadable(Filter(items, Keeper(filterBy)))
    ensures YearsReadable(Derive(items, filterBy, Year, collate))
  {
    var r := Derive(items, filterBy, Year, collate);
    var kept := Filter(items, Keeper(filterBy));
    assert multiset(r) == multiset(kept);
    forall i | 0 <= i < |r|
      ensures YearOf(r[i]).Some?
    {
      assert r[i] in multiset(kept);
      var j :| 0 <= j < |kept| && kept[j] == r[i];
    }
  }

  /** Among readable years, a list sorted newest first is sorted under the comparator as written. */
  lemma SortedAsWritten(r: seq<Item>, collate: Collation)
    requires YearsReadable(r)
    requires Sorted(Comparator(Year, collate), r)
    ensures Sorted(CompareYearsAsWritten, r)
  {
    forall i, j | 0 <= i < j < |r|
      ensures CompareYearsAsWritten(r[i], r[j]) <= 0
    {
      assert Comparator(Year, collate)(r[i], r[j]) <= 0;
    }
  }

  /** Among readable years, the ties of the comparator as written are those of the one in use. */
  lemma RunsAgreeWhereYearsRead(s: seq<Item>, collate: Collation, k: Item)
    requires YearsReadable(s) && YearOf(k).Some?
    ensures Run(CompareYearsAsWritten, s, k) == Run(Comparator(Year, collate), s, k)
  {
    FilterAgree(s, Ties(CompareYearsAsWritten, k), Ties(Comparator(Year, collate), k));
  }

  /**
   * Where a year does not read, the model departs from the page even though the page's
   * order is well defined there: a blank year ties with "1990" under the comparator as
   * written, so the page keeps the two in loaded order, while the view moves the blank
   * year after the readable one.
   */
  lemma BlankYearMovesBack(a: Item, b: Item, collate: Collation)
    requires Consistent(collate)
    requires a.yearReleased == "" && b.yearReleased == "1990"
    ensures IsStableSortOf(CompareYearsAsWritten, [a, b], [a, b])
    ensures Derive([a, b], All, Year, collate) == [b, a]
  {
    assert b.yearReleased == FourDigits(1990);
    NoDigitsNoNumber(a.yearReleased);
    FourDigitYear(b, 1990);
    UnreadableMovesBack(a, b, collate);
  }

  /** An unreadable year ties with a readable one as written, yet the view puts it second. */
  lemma UnreadableMovesBack(a: Item, b: Item, collate: Collation)
    requires Consistent(collate)
    ensures YearOf(a).None? && YearOf(b).Some? ==>
      && IsStableSortOf(CompareYearsAsWritten, [a, b], [a, b])
      && Derive([a, b], All, Year, collate) == [b, a]
  {
    if YearOf(a).None? && YearOf(b).Some? {
      BlankTiesAsWritten(a, b);
      UnreadableLast(a, b, collate);
      PairSwaps(a, b, Year, collate);
    }
  }

  /** As written, an unreadable year ties with anything, so two such items are already sorted. */
  lemma BlankTiesAsWritten(a: Item, b: Item)
    ensures YearOf(a).None? ==> IsStableSortOf(CompareYearsAsWritten, [a, b], [a, b])
  {
    if YearOf(a).None? {
      assert CompareYearsAsWritten(a, b) == 0;
      assert Sorted(CompareYearsAsWritten, [a, b]);
    }
  }

  /** The year comparator in use puts a readable year before an unreadable one. */
  lemma UnreadableLast(a: Item, b: Item, collate: Collation)
    ensures YearOf(a).None? && YearOf(b).Some? ==> Comparator(Year, collate)(b, a) < 0
  {
    YearComparatorApplies(b, a, collate);
  }

  /** The year sort compares the two items' parsed years. */
  lemma YearComparatorApplies(a: Item, b: Item, collate: Collation)
    ensures Comparator(Year, collate)(a, b) == CompareYears(YearOf(a), YearOf(b))
  {
  }

  /** Where every year reads, the comparator in use agrees with the one as written. */
  lemma CompareYearsAgreesWhereDefined(a: Item, b: Item)
    requires YearOf(a).Some? && YearOf(b).Some?
    ensures CompareYears(YearOf(a), YearOf(b)) == CompareYearsAsWritten(a, b)
  {
  }
}
