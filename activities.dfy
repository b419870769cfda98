/**
  The activity record. Timestamps are readings of an abstract clock, given
  as integers by the caller in place of `time.Now()`.
*/
module Activities {

  /** The three statuses the tracker knows; the update command accepts any text. */
  const StatusTodo := "todo"
  const StatusInProgress := "in-progress"
  const StatusDone := "done"

  datatype Activity = Activity(
    id: int,
    description: string,
    status: string,
    createdAt: int,
    updatedAt: int)

  /** The record the add command creates: status todo, both stamps the current time. */
  function NewActivity(id: int, description: string, now: int): (a: Activity)
    ensures a.id == id && a.description == description
    ensures a.status == StatusTodo
    ensures a.createdAt == now && a.updatedAt == now
  {
    Activity(id, description, StatusTodo, now, now)
  }

  /**
    The record after `update <id> <field> <value>` at time `now`: the field
    `desc` replaces the description, `status` replaces the status (with no
    check on the value), any other field name changes neither; in every case
    the record is stamped with `now` and keeps its id and creation time.
  */
  function ApplyField(a: Activity, field: string, value: string, now: int): (r: Activity)
    ensures r.id == a.id && r.createdAt == a.createdAt && r.updatedAt == now
    ensures r.description == (if field == "desc" then value else a.description)
    ensures r.status == (if field == "status" then value else a.status)
  {
    var changed :=
      if field == "desc" then a.(description := value)
      else if field == "status" then a.(status := value)
      else a;
    changed.(updatedAt := now)
  }
}
