/** `Promise.all` over independent calls: it fulfils only when every call does,
    and otherwise rejects with the reason of the call that rejected first in
    time. The time order is a parameter, `order`, listing call indices in the
    order they settled. */
module FanIn {
  import opened Wrappers

  /** `order` lists each of the `n` call indices exactly once. */
  predicate IsSettleOrder(order: seq<nat>, n: nat) {
    && |order| == n
    && (forall j :: 0 <= j < |order| ==> order[j] < n)
    && (forall i :: 0 <= i < n ==> i in order)
  }

  /** The rejection reason of the first call, in settle order, that failed. */
  function FirstRejection<E>(errors: seq<Option<E>>, order: seq<nat>): (r: Option<E>)
    requires forall j :: 0 <= j < |order| ==> order[j] < |errors|
    ensures r.None? <==> forall j :: 0 <= j < |order| ==> errors[order[j]].None?
    ensures r.Some? ==>
      exists j :: 0 <= j < |order| && errors[order[j]] == r
        && forall j' :: 0 <= j' < j ==> errors[order[j']].None?
  {
    if |order| == 0 then None
    else if errors[order[0]].Some? then errors[order[0]]
    else
      var r := FirstRejection(errors, order[1..]);
      ShiftWitness(errors, order, r);
      r
  }

  /** What the first call's success adds to the recursive call's contract. */
  lemma ShiftWitness<E>(errors: seq<Option<E>>, order: seq<nat>, r: Option<E>)
    requires forall j :: 0 <= j < |order| ==> order[j] < |errors|
    requires |order| > 0 && errors[order[0]].None?
    requires r.None? <==> forall j :: 0 <= j < |order[1..]| ==> errors[order[1..][j]].None?
    requires r.Some? ==>
      exists j :: 0 <= j < |order[1..]| && errors[order[1..][j]] == r
        && forall j' :: 0 <= j' < j ==> errors[order[1..][j']].None?
    ensures r.None? <==> forall j :: 0 <= j < |order| ==> errors[order[j]].None?
    ensures r.Some? ==>
      exists j :: 0 <= j < |order| && errors[order[j]] == r
        && forall j' :: 0 <= j' < j ==> errors[order[j']].None?
  {
    assert forall j :: 1 <= j < |order| ==> order[j] == order[1..][j - 1];
    if r.Some? {
      var j :| 0 <= j < |order[1..]| && errors[order[1..][j]] == r
        && forall j' :: 0 <= j' < j ==> errors[order[1..][j']].None?;
      assert errors[order[j + 1]] == r;
    }
  }

  /** With a settle order covering every call, the aggregate fails exactly when some call
      fails, and then with one of the failures' reasons. */
  lemma AllOrNothing<E>(errors: seq<Option<E>>, order: seq<nat>)
    requires IsSettleOrder(order, |errors|)
    ensures FirstRejection(errors, order).None? <==> forall i :: 0 <= i < |errors| ==> errors[i].None?
    ensures FirstRejection(errors, order).Some? ==>
      exists i :: 0 <= i < |errors| && errors[i] == FirstRejection(errors, order)
  {
    var r := FirstRejection(errors, order);
    if r.None? {
      forall i | 0 <= i < |errors| ensures errors[i].None? {
        assert i in order;
        var j :| 0 <= j < |order| && order[j] == i;
      }
    }
  }

  /** A failure of a settled call, or none. */
  function ErrorOf<T, E>(r: Result<T, E>): (e: Option<E>)
    ensures e.None? <==> r.Success?
    ensures e.Some? ==> r == Failure(e.value)
  {
    match r
    case Success(_) => None
    case Failure(err) => Some(err)
  }
}
