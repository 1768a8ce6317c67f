/**
 * A schedule row as the decoder builds it: a plain JavaScript object whose keys
 * are kept in insertion order (the order `Object.keys` lists them).
 */
module Rows {
  import opened Wrappers

  datatype Row = Row(keys: seq<string>, cells: map<string, string>)

  /** The columns the viewer filters on; the first also marks store managers. */
  const DesignationColumn: string := "DESIGNATION"
  const NationalityColumn: string := "NATIONALITY"
  const StoreNameColumn: string := "STORE NAME"
  const EmployeeNameColumn: string := "EMPLOYEE NAME"

  /** The keys are distinct and are exactly the keys of the cell map. */
  ghost predicate WellFormed(r: Row) {
    (forall i, j :: 0 <= i < j < |r.keys| ==> r.keys[i] != r.keys[j])
    && (forall k :: k in r.cells <==> k in r.keys)
  }

  /** `row[key]`: the cell, or `undefined` for a key the row does not have. */
  function Lookup(r: Row, key: string): Option<string> {
    if key in r.cells then Some(r.cells[key]) else None
  }

  /** `obj[key] = value`: a new key goes to the end, an existing key keeps its place. */
  function Put(r: Row, key: string, value: string): (r': Row)
    requires WellFormed(r)
    ensures WellFormed(r')
    ensures r'.cells == r.cells[key := value]
    ensures key in r.cells ==> r'.keys == r.keys
    ensures key !in r.cells ==> r'.keys == r.keys + [key]
  {
    if key in r.cells then Row(r.keys, r.cells[key := value])
    else Row(r.keys + [key], r.cells[key := value])
  }
}
