/** Small vocabulary shared by every store: optional values, results with an
    error, the active/inactive status and the "all" sentinel of the filter
    drop-downs. */
module Shared {

  /** A possibly absent value. Used both for JavaScript's `null` (no package
      selected) and for the keys of a `Partial<...>` payload. */
  datatype Option<+T> = None | Some(value: T) {
    /** The value if present, otherwise `default`: the semantics of one key of
        an object spread `{ ...old, ...patch }`. */
    function GetOr(default: T): T {
      match this
      case Some(v) => v
      case None => default
    }
  }

  /** The outcome of an operation that can fail. */
  datatype Result<+T, +E> = Ok(value: T) | Err(error: E)

  /** The `'active' | 'inactive'` status of packages and trainers. */
  datatype Activity = Active | Inactive {
    /** The string literal the source stores for this status. */
    function Name(): string {
      match this
      case Active => "active"
      case Inactive => "inactive"
    }
  }

  /** The value a filter drop-down holds when it imposes no constraint. */
  const All: string := "all"

  /** A drop-down filter accepts a value when it is set to `'all'` or when it
      equals the value exactly (the `filter === 'all' || x === filter` idiom). */
  predicate FilterAccepts(filter: string, value: string) {
    filter == All || value == filter
  }

  /** The `'all'` setting accepts every value; any other setting accepts
      exactly the value it names. */
  lemma FilterAcceptsSemantics(filter: string, value: string)
    ensures FilterAccepts(All, value)
    ensures filter != All ==> (FilterAccepts(filter, value) <==> value == filter)
  {
  }

  /** The filter set to a status name selects exactly that status. */
  lemma StatusFilterSelects(a: Activity, b: Activity)
    ensures FilterAccepts(b.Name(), a.Name()) <==> a == b
  {
  }
}
