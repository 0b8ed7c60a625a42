/**
 * The Units Registry is outside this model; it is consulted only through
 * four questions, so it is given as the tables that answer them.
 */
module Utr {
  import opened Wrappers
  import opened QNames
  import opened Dicts

  datatype Utr = Utr(
    unitIds: seq<(string, QName)>,
    unitsForDataType: seq<(QName, seq<QName>)>,
    unitIdsForDataType: seq<(QName, seq<string>)>,
    validUnits: set<(QName, QName)>)
  {
    /** `getQNameForUnitId`. */
    function QNameForUnitId(id: string): Option<QName> {
      Get(unitIds, id)
    }

    /** `getUnitsForDataType`: no entry gives no units. */
    function UnitsForDataType(dataType: QName): seq<QName> {
      Get(unitsForDataType, dataType).GetOr([])
    }

    /** `getUnitIdsForDataType`. */
    function UnitIdsForDataType(dataType: QName): seq<string> {
      Get(unitIdsForDataType, dataType).GetOr([])
    }

    /** `valid(dataType, unit)`. */
    predicate Valid(dataType: QName, unit: QName) {
      (dataType, unit) in validUnits
    }
  }
}
