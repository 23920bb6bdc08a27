/** The error-type ids of the g2error package and the table that maps a native
    engine error code to the ids it belongs to.

    The constants and the table itself are declared outside g2error.go; here
    the ids form a closed datatype and the table is a parameter of every
    operation that consults it. */
module Taxonomy {

  /** The four base categories. `General` is the source's `G2` id, whose
      wrapper is `G2BaseError`. */
  datatype BaseCategory = BadUserInput | General | Retryable | Unrecoverable

  /** The twenty detail categories, each with a wrapper that only embeds. */
  datatype DetailCategory =
    | Configuration
    | DatabaseConnectionLost
    | Database
    | IncompleteRecord
    | MalformedJson
    | MessageBuffer
    | MissingConfiguration
    | MissingDataSource
    | ModuleEmptyMessage
    | Module
    | ModuleGeneric
    | ModuleInvalidXML
    | ModuleLicense
    | ModuleNotInitialized
    | ModuleResolveMissingResEnt
    | NotFound
    | RepositoryPurged
    | RetryTimeoutExceeded
    | UnacceptableJsonKeyValue
    | Unhandled

  /** An error type id as it can appear in the table: one of the 24 named
      ids, or any other value of the id type, which the wrapping switch
      sends to its `default` branch. */
  datatype TypeId =
    | Category(base: BaseCategory)
    | Detail(detail: DetailCategory)
    | Other(value: int)

  /** Native error code to the ordered list of ids it belongs to. A list may
      be empty and may repeat an id. */
  type Table = map<int, seq<TypeId>>

  /** The ids of `code`; an unknown code has none. */
  function CategoriesOf(table: Table, code: int): seq<TypeId> {
    if code in table then table[code] else []
  }

  /** The kind of wrapper the switch in G2Error picks for one id. */
  datatype Layer = BaseLayer(base: BaseCategory) | DetailLayer(detail: DetailCategory)

  function LayerOf(id: TypeId): Layer {
    match id
    case Category(b) => BaseLayer(b)
    case Detail(d) => DetailLayer(d)
    case Other(_) => BaseLayer(General)
  }

  /** True when the last id of `ids` yields a base wrapper, i.e. the error
      built from `ids` has a base wrapper as its outermost layer. */
  predicate EndsInBase(ids: seq<TypeId>) {
    |ids| > 0 && !ids[|ids| - 1].Detail?
  }
}
