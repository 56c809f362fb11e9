/** Identifier allocation: the stores give a new record the id
    `Math.max(...ids) + 1`. */
module Ids {
  import opened Shared

  /** Why a store's create branch produces no record. */
  datatype CreateError =
    | NoIntegerId        // `Math.max()` of no ids is `-Infinity`
    | IncompletePayload  // a key the record needs is missing from the payload

  /** `Math.max(...ids)`. With no arguments `Math.max` returns `-Infinity`,
      which is not an integer; `None` stands for it. */
  function Max(ids: seq<int>): (m: Option<int>)
    ensures m.None? <==> |ids| == 0
    ensures m.Some? ==> m.value in ids && forall x :: x in ids ==> x <= m.value
  {
    if |ids| == 0 then None
    else
      assert ids == [ids[0]] + ids[1..];
      match Max(ids[1..])
      case None => Some(ids[0])
      case Some(v) => Some(if ids[0] >= v then ids[0] else v)
  }

  /** `Math.max(...ids) + 1`: an integer exactly when there is at least one id;
      it is then one more than the largest id, so it is larger than all of
      them and differs from each. */
  function NextId(ids: seq<int>): (n: Option<int>)
    ensures n.None? <==> |ids| == 0
    ensures n.Some? ==> n.value - 1 in ids
    ensures n.Some? ==> forall x :: x in ids ==> x < n.value
    ensures n.Some? ==> n.value !in ids
  {
    match Max(ids)
    case None => None
    case Some(m) => Some(m + 1)
  }
}
