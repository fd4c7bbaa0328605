/** The card record the catalogue API returns. Only the fields the modelled
    code reads are kept; the record type itself is defined outside the pages
    and is not part of this model. */
module Catalogue {
  import opened Wrappers

  /** `id` is numeric, the other fields are optional strings:
      `number` (e.g. "BP01-001"), `display_card_bundle_names` (a
      comma-separated list of bundle names) and `character_name`. */
  datatype Card = Card(
    id: Option<int>,
    number: Option<string>,
    bundleNames: Option<string>,
    characterName: Option<string>)
}
