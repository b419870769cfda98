/**
  What a user sees and what the table becomes when particular commands are
  typed, for every table, every id and every spelling of the command line.
*/
module Scenarios {
  import opened GoStrings
  import opened Activities
  import opened Store
  import opened Commands

  /** The line `update <id> status done`. */
  function DoneLine(id: int): string {
    Typed("update", JoinSpace([Itoa(id), "status", "done"]))
  }

  /** `update <id> status done`, spelled the usual way, decodes to the update it names. */
  lemma ParseDoneLine(id: int)
    requires MinInt64 <= id <= MaxInt64
    ensures Parse(DoneLine(id)) == UpdateCmd(id, "status", StatusDone)
  {
    UpdatePlainLine(id, "status", "done");
  }

  /**
    A line that asks to mark `id` done marks it done and stamps it when the
    id is present, and reports not-found and changes nothing when it is not.
  */
  lemma StepDone(t: Table, id: int, line: string, now: int)
    requires Parse(line) == UpdateCmd(id, "status", StatusDone)
    ensures var r := Step(t, line, now);
            && (id in t.activities ==>
                  && r.outcome == Updated(id)
                  && r.table == Update(t, id, "status", StatusDone, now)
                  && r.table.activities.Keys == t.activities.Keys
                  && r.table.activities[id].status == StatusDone
                  && r.table.activities[id].updatedAt == now
                  && r.table.activities[id].description == t.activities[id].description
                  && r.table.activities[id].createdAt == t.activities[id].createdAt
                  && (forall k :: k in t.activities && k != id ==> r.table.activities[k] == t.activities[k]))
            && (id !in t.activities ==> r == Transition(t, NotFound(id)))
  {
  }

  /** After a line that marks `id` done, `list done` shows the record and `list todo` does not. */
  lemma DoneIsListedUnderDone(t: Table, id: int, line: string, now: int)
    requires id in t.activities
    requires Parse(line) == UpdateCmd(id, "status", StatusDone)
    ensures var after := Step(t, line, now).table;
            && id in Selection(after.activities, StatusDone)
            && id !in Selection(after.activities, StatusTodo)
  {
    StepDone(t, id, line, now);
  }

  /**
    After a line that deletes `id`, the id is gone, and any later update of
    it reports not-found and brings nothing back.
  */
  lemma DeletedStaysDeleted(t: Table, id: int, del: string, upd: string, now1: int, now2: int)
    requires Parse(del) == DeleteCmd(id)
    requires Parse(upd).UpdateCmd? && Parse(upd).id == id
    ensures var after := Step(t, del, now1).table;
            && id !in after.activities
            && Step(after, upd, now2) == Transition(after, NotFound(id))
  {
    var after := Remove(t, id);
    assert Step(t, del, now1).table == after;
    assert id !in after.activities;
  }

  /** With no activities, `list all` shows nothing and prints the notice. */
  lemma EmptyListAll(now: int)
    ensures Step(Empty, Typed("list", "all"), now) == Transition(Empty, Listed(map[], true))
  {
    ListLine("all");
  }
}
