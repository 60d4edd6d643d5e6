/**
 * The catalog record and the two closed view-selection enumerations.
 *
 * Scores are kept in integer tenths: a `popularity_score` of 7.5 is stored as 75.  The
 * model assumes every score has at most one decimal place; under that assumption tenths
 * are exact and keep every comparison the pages make.
 */
module Trick {

  /** One catalog entry. */
  datatype Item = Item(
    productCode: string,
    name: string,
    description: string,
    yearReleased: string,
    creator: string,
    popularityScore: int,
    rarityScore: int,
    combinedScore: int,
    imageFilename: string,
    reviews: seq<string>,
    consensus: string)

  /** Sort modes offered by the filter bar. */
  datatype SortOption = Combined | Popularity | Rarity | Year | Name

  /** Filter modes offered by the filter bar. */
  datatype FilterOption = All | Rare | Popular | Classic
}
