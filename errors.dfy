/** The exceptions the taxonomy code raises, as values. */
module Errors {
  import opened QNames

  /** Why a `TaxonomyException` was raised. */
  datatype Reason =
    | NoPeriodType
    | NoDataType
    | NoBaseDataType
    | AlreadyReified
    | MultipleContainers
    | AlreadyLoaded

  datatype Error =
    | KeyError(field: string)                 // a missing JSON member
    | ConceptKeyError(qname: QName)           // a concept the taxonomy does not hold
    | ValueError(value: string)               // a bad enumeration value
    | TaxonomyException(reason: Reason)
    | UnknownTaxonomyException(entryPoint: string)
    | AmbiguousComponentException(candidates: set<QName>)

  /** The two specific taxonomy errors are subclasses of `TaxonomyException`. */
  predicate IsTaxonomyException(e: Error) {
    e.TaxonomyException? || e.UnknownTaxonomyException? || e.AmbiguousComponentException?
  }
}
