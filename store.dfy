/**
  The tracker's state as a value: the activities keyed by id and the
  counter `inputID` that numbers the next one, with the effect of each
  handler on them. The class in module Tracker performs the same changes in
  place and is proved against these functions.
*/
module Store {
  import opened Activities

  datatype Table = Table(activities: map<int, Activity>, inputID: int)

  /** The state at the start of a session: no activities, the next id is 1. */
  const Empty := Table(map[], 1)

  /**
    Every key names the record stored under it, and every key is an id
    already handed out: at least 1 and below the counter.
  */
  predicate Valid(t: Table) {
    && 1 <= t.inputID
    && forall k :: k in t.activities ==> t.activities[k].id == k && 1 <= k < t.inputID
  }

  /** No record was updated before it was created, nor after `now`. */
  predicate Stamped(t: Table, now: int) {
    forall k :: k in t.activities ==>
      t.activities[k].createdAt <= t.activities[k].updatedAt <= now
  }

  /**
    `add`: store a new record under the counter, then step the counter. On a
    valid table the id is fresh, so exactly one entry is added and none is
    overwritten.
  */
  function Insert(t: Table, description: string, now: int): (r: Table)
    ensures r.inputID == t.inputID + 1
    ensures r.activities.Keys == t.activities.Keys + {t.inputID}
    ensures r.activities[t.inputID] == NewActivity(t.inputID, description, now)
    ensures forall k :: k in t.activities && k != t.inputID ==> r.activities[k] == t.activities[k]
    ensures Valid(t) ==> Valid(r) && |r.activities| == |t.activities| + 1
    ensures Stamped(t, now) ==> Stamped(r, now)
  {
    var activity := NewActivity(t.inputID, description, now);
    assert Valid(t) ==> activity.id !in t.activities;
    Table(t.activities[activity.id := activity], t.inputID + 1)
  }

  /**
    `UpdateActivity`: a missing id changes nothing; otherwise only the
    record under `id` changes, as ApplyField says, and the counter stays.
  */
  function Update(t: Table, id: int, field: string, value: string, now: int): (r: Table)
    ensures r.inputID == t.inputID
    ensures id !in t.activities ==> r == t
    ensures r.activities.Keys == t.activities.Keys
    ensures id in t.activities ==> r.activities[id] == ApplyField(t.activities[id], field, value, now)
    ensures forall k :: k in t.activities && k != id ==> r.activities[k] == t.activities[k]
    ensures Valid(t) ==> Valid(r)
    ensures Stamped(t, now) ==> Stamped(r, now)
  {
    if id !in t.activities then t
    else Table(t.activities[id := ApplyField(t.activities[id], field, value, now)], t.inputID)
  }

  /**
    `delete`: remove the key if it is there; nothing else changes, the
    counter included, so a deleted id is never handed out again.
  */
  function Remove(t: Table, id: int): (r: Table)
    ensures r.inputID == t.inputID
    ensures r.activities.Keys == t.activities.Keys - {id}
    ensures forall k :: k in r.activities ==> r.activities[k] == t.activities[k]
    ensures id !in t.activities ==> r == t
    ensures Valid(t) ==> Valid(r)
    ensures forall now :: Stamped(t, now) ==> Stamped(r, now)
  {
    Table(t.activities - {id}, t.inputID)
  }

  /** Whether `list <listType>` shows a record with this status. */
  predicate Shows(status: string, listType: string) {
    status == listType || listType == "all"
  }

  /**
    The records `list <listType>` shows: those whose status is `listType`,
    or all of them when `listType` is `all`, unchanged.
  */
  function Selection(m: map<int, Activity>, listType: string): (r: map<int, Activity>)
    ensures r.Keys <= m.Keys
    ensures forall k :: k in r ==> r[k] == m[k]
    ensures listType == "all" ==> r == m
    ensures listType != "all" ==> forall k :: k in r ==> r[k].status == listType
    ensures forall k :: k in m && m[k].status == listType ==> k in r
  {
    map k | k in m && Shows(m[k].status, listType) :: m[k]
  }

  /** A map that holds exactly the records of `m` that `list <listType>` shows is the selection. */
  lemma IsSelection(m: map<int, Activity>, listType: string, shown: map<int, Activity>)
    requires forall k :: k in shown <==> k in m && Shows(m[k].status, listType)
    requires forall k :: k in shown ==> shown[k] == m[k]
    ensures shown == Selection(m, listType)
  {
    var selected := Selection(m, listType);
    forall k | k in shown
      ensures k in selected && shown[k] == selected[k]
    {
    }
    forall k | k in selected
      ensures k in shown
    {
    }
    assert shown.Keys <= selected.Keys && selected.Keys <= shown.Keys;
  }
}
