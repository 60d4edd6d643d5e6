/**
 * What a catalog card derives from its item: the Rare and Popular badges, the two ten-slot
 * star ratings, the score bars, and which reviews and consensus text the detail view shows.
 * Scores are in tenths, so a score `t` stands for `t / 10` points out of 10.
 */
module TrickCard {
  import opened Seqs
  import opened Sorting
  import opened Trick
  import Home

  /** The Rare badge's least rarity, 8, in tenths. */
  const RareBadgeMinimum := 80
  /** The Popular badge's least popularity, 8, in tenths. */
  const PopularBadgeMinimum := 80

  predicate IsRare(t: Item) {
    t.rarityScore >= RareBadgeMinimum
  }

  predicate IsPopular(t: Item) {
    t.popularityScore >= PopularBadgeMinimum
  }

  /** The items of a derived view that wear the Rare badge are exactly what the "rare" filter shows. */
  lemma RareBadgeMatchesFilter(items: seq<Item>, sortBy: SortOption, collate: Home.Collation)
    requires Consistent(collate)
    ensures forall t :: t in Home.Derive(items, Rare, sortBy, collate) <==> t in items && IsRare(t)
  {
  }

  /** The items of a derived view that wear the Popular badge are exactly what the "popular" filter shows. */
  lemma PopularBadgeMatchesFilter(items: seq<Item>, sortBy: SortOption, collate: Home.Collation)
    requires Consistent(collate)
    ensures forall t :: t in Home.Derive(items, Popular, sortBy, collate) <==> t in items && IsPopular(t)
  {
  }

  datatype Star = Full | Half | Empty

  /** How bright a star is: full 2, half 1, empty 0. */
  function Brightness(s: Star): nat {
    match s
    case Full => 2
    case Half => 1
    case Empty => 0
  }

  /** Slot `i` of a rating: full below the whole points, half at the next slot when the fraction is at least one half. */
  function Slot(t: int, i: int): Star {
    if i < t / 10 then Full
    else if i == t / 10 && t % 10 >= 5 then Half
    else Empty
  }

  /** Slots `i` to 9 of the rating for score `t`. */
  function Slots(t: int, i: nat): (r: seq<Star>)
    requires i <= 10
    ensures |r| == 10 - i
    decreases 10 - i
  {
    if i == 10 then [] else [Slot(t, i)] + Slots(t, i + 1)
  }

  /** The ten stars shown for score `t`. */
  function StarRating(t: int): (r: seq<Star>)
    ensures |r| == 10
    ensures forall i, j :: 0 <= i < j < |r| ==> Brightness(r[i]) >= Brightness(r[j])
    ensures forall i, j :: 0 <= i < j < |r| && r[i] == Half ==> r[j] == Empty
  {
    SlotsAt(t, 0);
    Slots(t, 0)
  }

  lemma {:induction false} SlotsAt(t: int, i: nat)
    requires i <= 10
    ensures forall k :: 0 <= k < 10 - i ==> Slots(t, i)[k] == Slot(t, i + k)
    decreases 10 - i
  {
    if i < 10 {
      SlotsAt(t, i + 1);
    }
  }

  /** The sum of the brightness of `s`, in half stars. */
  function HalfStars(s: seq<Star>): nat {
    if |s| == 0 then 0 else Brightness(s[0]) + HalfStars(s[1..])
  }

  function Clamp(x: int, lo: int, hi: int): int {
    if x < lo then lo else if x > hi then hi else x
  }

  /** Slots `i..9` hold the half stars of the score that fall at or after slot `i`. */
  lemma {:induction false} SlotsHalfStars(t: int, i: nat)
    requires i <= 10
    ensures HalfStars(Slots(t, i)) == Clamp(2 * (t / 10) + (if t % 10 >= 5 then 1 else 0), 2 * i, 20) - 2 * i
    decreases 10 - i
  {
    if i < 10 {
      SlotsHalfStars(t, i + 1);
    }
  }

  /** The stars show the score rounded down to a half star, and cut off at 0 and 10. */
  lemma StarsRoundDownToHalf(t: int)
    ensures 0 <= t <= 100 ==> 5 * HalfStars(StarRating(t)) <= t < 5 * HalfStars(StarRating(t)) + 5
    ensures t < 0 ==> HalfStars(StarRating(t)) == 0
    ensures t >= 100 ==> HalfStars(StarRating(t)) == 20
  {
    SlotsHalfStars(t, 0);
  }

  /**
   * The width of a score bar, in percent: ten times the score.  For a score in range the bar
   * reaches the last full star of the same score's rating.
   */
  function BarWidth(t: int): (w: int)
    ensures 0 <= t <= 100 ==> 0 <= w <= 100 && w / 10 == |Filter(StarRating(t), IsFull)|
  {
    FullSlots(t, 0);
    t
  }

  /** For a score in range: `floor(score)` full stars, and a half star right after them exactly when the fraction is at least one half. */
  lemma StarSlots(t: int)
    requires 0 <= t <= 100
    ensures |Filter(StarRating(t), IsFull)| == t / 10
    ensures forall i :: 0 <= i < 10 ==> (StarRating(t)[i] == Full <==> i < t / 10)
    ensures forall i :: 0 <= i < 10 ==> (StarRating(t)[i] == Half <==> i == t / 10 && t % 10 >= 5)
    ensures |Filter(StarRating(t), IsHalf)| <= 1
  {
    SlotsAt(t, 0);
    FullSlots(t, 0);
    AtMostOneHalf(t);
  }

  /** A rating holds at most one half star. */
  lemma AtMostOneHalf(t: int)
    ensures |Filter(StarRating(t), IsHalf)| <= 1
  {
    HalfSlots(t, 0);
  }

  /** Slots `i..9` hold one half star when the score's half star falls among them, and none otherwise. */
  lemma {:induction false} HalfSlots(t: int, i: nat)
    requires i <= 10
    ensures |Filter(Slots(t, i), IsHalf)| == if i <= t / 10 < 10 && t % 10 >= 5 then 1 else 0
    decreases 10 - i
  {
    if i < 10 {
      HalfSlots(t, i + 1);
      assert Slots(t, i)[1..] == Slots(t, i + 1);
    }
  }

  predicate IsHalf(s: Star) {
    s == Half
  }

  predicate IsFull(s: Star) {
    s == Full
  }

  lemma {:induction false} FullSlots(t: int, i: nat)
    requires i <= 10
    ensures |Filter(Slots(t, i), IsFull)| == Clamp(t / 10, i, 10) - i
    decreases 10 - i
  {
    if i < 10 {
      FullSlots(t, i + 1);
    }
  }

  function NonEmpty(r: string): bool {
    r != ""
  }

  /** The reviews the detail view lists: every non-empty review, in order. */
  function ShownReviews(reviews: seq<string>): (r: seq<string>)
    ensures forall x :: x in r <==> x in reviews && x != ""
    ensures IsSubsequence(r, reviews)
    ensures forall x :: x != "" ==> multiset(r)[x] == multiset(reviews)[x]
  {
    FilterIsSubsequence(reviews, NonEmpty);
    FilterCount(reviews, NonEmpty);
    FilterMembers(reviews, NonEmpty);
    Filter(reviews, NonEmpty)
  }

  /** No review is listed exactly when every review is empty. */
  lemma NoReviewsShown(reviews: seq<string>)
    ensures ShownReviews(reviews) == [] <==> forall i :: 0 <= i < |reviews| ==> reviews[i] == ""
  {
    var shown := ShownReviews(reviews);
    if shown != [] {
      assert shown[0] in shown;
    }
    if exists i :: 0 <= i < |reviews| && reviews[i] != "" {
      var i :| 0 <= i < |reviews| && reviews[i] != "";
      assert reviews[i] in reviews;
    }
  }

  /** The detail view's content for one item. */
  datatype Detail = Detail(
    rareBadge: bool,
    popularBadge: bool,
    popularityStars: seq<Star>,
    rarityStars: seq<Star>,
    popularityBar: int,
    rarityBar: int,
    consensus: bool,
    reviews: seq<string>)

  /** A card and its detail view, as derived from one item. */
  function CardOf(t: Item): (d: Detail)
    ensures d.rareBadge <==> Home.Keep(Rare, t)
    ensures d.popularBadge <==> Home.Keep(Popular, t)
    ensures d.consensus <==> |t.consensus| > 0
    ensures |d.popularityStars| == 10 && |d.rarityStars| == 10
    ensures 0 <= t.popularityScore <= 100 ==> ShowsScore(d.popularityStars, t.popularityScore)
    ensures 0 <= t.rarityScore <= 100 ==> ShowsScore(d.rarityStars, t.rarityScore)
    ensures d.popularityBar == t.popularityScore && d.rarityBar == t.rarityScore
    ensures IsSubsequence(d.reviews, t.reviews) && "" !in d.reviews
    ensures forall x :: x != "" ==> multiset(d.reviews)[x] == multiset(t.reviews)[x]
    ensures d.reviews == [] <==> forall i :: 0 <= i < |t.reviews| ==> t.reviews[i] == ""
  {
    NoReviewsShown(t.reviews);
    RatingShowsScore(t.popularityScore);
    RatingShowsScore(t.rarityScore);
    Detail(
      IsRare(t), IsPopular(t),
      StarRating(t.popularityScore), StarRating(t.rarityScore),
      BarWidth(t.popularityScore), BarWidth(t.rarityScore),
      t.consensus != "",
      ShownReviews(t.reviews))
  }

  /**
   * Ten stars showing the score `t` (in tenths): the first `t / 10` slots full and no other,
   * and a half star right after them exactly when the fraction is at least one half.
   */
  ghost predicate ShowsScore(stars: seq<Star>, t: int) {
    && |stars| == 10
    && |Filter(stars, IsFull)| == t / 10
    && (forall i :: 0 <= i < 10 ==> (stars[i] == Full <==> i < t / 10))
    && forall i :: 0 <= i < 10 ==> (stars[i] == Half <==> i == t / 10 && t % 10 >= 5)
  }

  /** The rating of a score in range shows that score. */
  lemma RatingShowsScore(t: int)
    ensures 0 <= t <= 100 ==> ShowsScore(StarRating(t), t)
  {
    if 0 <= t <= 100 {
      StarSlots(t);
    }
  }
}
