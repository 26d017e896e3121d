/**
 * The whitelist filter applied to request bodies before an update, and the
 * 400 error raised when nothing survives it.
 */
module Filter {
  import opened Wrappers

  /** Keep the entries of `obj` whose key is one of `allowed`, with their values. */
  function FilterObj<V>(obj: map<string, V>, allowed: seq<string>): (r: map<string, V>)
    ensures forall k :: k in r <==> k in obj && k in allowed
    ensures forall k :: k in r ==> r[k] == obj[k]
  {
    map k | k in obj && k in allowed :: obj[k]
  }

  /** Filtering a second time with the same list changes nothing. */
  lemma FilterObjIdempotent<V>(obj: map<string, V>, allowed: seq<string>)
    ensures FilterObj(FilterObj(obj, allowed), allowed) == FilterObj(obj, allowed)
  {
  }

  /** With nothing allowed, nothing is kept. */
  lemma FilterObjNothingAllowed<V>(obj: map<string, V>)
    ensures FilterObj(obj, []) == map[]
  {
  }

  /** `filterObjError`: always a 400 carrying the given message. */
  function FilterObjError(message: string): (e: Error)
    ensures e.status == BadRequest && e.message == message
  {
    Error(BadRequest, message)
  }
}
