/**
 * JavaScript objects and maps as lists of fields in insertion order, with names compared
 * under a given folding: exactly, or up to case.
 */
module Objects {

  type Fields<V> = seq<(string, V)>

  /** No two fields have the same name under `fold`. */
  ghost predicate Unique<V>(fields: Fields<V>, fold: string -> string) {
    forall i, j | 0 <= i < j < |fields| :: fold(fields[i].0) != fold(fields[j].0)
  }

  function Exact(name: string): string {
    name
  }

  /** The position of the field called `name`, or -1. */
  function Position<V>(fields: Fields<V>, name: string, fold: string -> string): (i: int)
    ensures -1 <= i < |fields|
    ensures i >= 0 ==> fold(fields[i].0) == fold(name)
    ensures forall k | 0 <= k < (if i < 0 then |fields| else i) :: fold(fields[k].0) != fold(name)
  {
    if fields == [] then -1
    else if fold(fields[0].0) == fold(name) then 0
    else
      var i := Position(fields[1..], name, fold);
      if i < 0 then -1 else i + 1
  }

  function Without<V>(fields: Fields<V>, i: nat): Fields<V>
    requires i < |fields|
  {
    fields[..i] + fields[i + 1..]
  }

  /** Assigning a field: in place when the name is there, else at the end. */
  function Put<V>(fields: Fields<V>, field: (string, V), fold: string -> string): Fields<V> {
    var i := Position(fields, field.0, fold);
    if i < 0 then fields + [field] else fields[i := field]
  }

  lemma UniqueWithout<V>(fields: Fields<V>, i: nat, fold: string -> string)
    requires Unique(fields, fold) && i < |fields|
    ensures Unique(Without(fields, i), fold)
    ensures forall f | f in Without(fields, i) :: fold(f.0) != fold(fields[i].0) && f in fields
  {
    var w := Without(fields, i);
    assert forall k | 0 <= k < |w| :: w[k] == fields[if k < i then k else k + 1];
  }
}
