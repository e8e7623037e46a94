/**
 * The records of types.go. A nullable `*time.Time` column is an `Option`;
 * timestamps are opaque strings.
 */
module Types {
  import opened Wrappers

  type Timestamp = string

  /** Stands for Go's zero `time.Time`, the value of a column that is never scanned. */
  const ZERO_TIME: Timestamp := ""

  datatype BonusType = BonusType(
    id: int, nameId: string,
    nameEn: string, nameFr: string, nameEs: string, nameDe: string, nameIt: string, namePt: string,
    createdAt: Timestamp, updatedAt: Timestamp, deletedAt: Option<Timestamp>)

  datatype Bonus = Bonus(
    id: int, bonusTypeId: int,
    descriptionEn: string, descriptionFr: string, descriptionEs: string,
    descriptionDe: string, descriptionIt: string, descriptionPt: string,
    createdAt: Timestamp, updatedAt: Timestamp, deletedAt: Option<Timestamp>)

  datatype Tribute = Tribute(
    id: int,
    itemNameEn: string, itemNameFr: string, itemNameEs: string,
    itemNameDe: string, itemNameIt: string, itemNamePt: string,
    itemIcon: string, itemSd: string, itemHq: string, itemHd: string,
    itemAnkamaId: int, itemSubtype: string, itemDoduapiUri: string, quantity: int,
    createdAt: Timestamp, updatedAt: Timestamp, deletedAt: Option<Timestamp>)

  datatype Almanax = Almanax(
    id: int, bonusId: int, tributeId: int, date: string, rewardKamas: int,
    createdAt: Timestamp, updatedAt: Timestamp, deletedAt: Option<Timestamp>)

  /** One almanax day with the rows it references. */
  datatype MappedAlmanax = MappedAlmanax(almanax: Almanax, bonus: Bonus, bonusType: BonusType, tribute: Tribute)

  /** A bonus as the public listing API shows it: the english slug and the translated name. */
  datatype AlmanaxBonusListing = AlmanaxBonusListing(id: string, name: string)

  /** A search-index document: a surrogate primary key `id` plus the listing. */
  datatype AlmanaxBonusListingMeili = AlmanaxBonusListingMeili(id: string, slug: string, name: string)
}
