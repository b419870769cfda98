/**
  The tracker as the program keeps it: a map of activities and the counter
  `inputID`, changed in place by the handlers of the command loop. Every
  method is proved to make exactly the change the functions of module Store
  and module Commands describe.
*/
module Tracker {
  import opened Activities
  import opened Store
  import opened Commands

  /** Each group of the listing holds records of its own status, a status being listed. */
  predicate Grouped(list: map<string, seq<Activity>>, listType: string) {
    forall status :: status in list ==>
      Shows(status, listType) && forall a :: a in list[status] ==> a.status == status
  }

  /** Appending a listed record to the group of its status keeps the listing grouped. */
  lemma GroupedAppend(list: map<string, seq<Activity>>, listType: string, a: Activity)
    requires Grouped(list, listType) && Shows(a.status, listType)
    ensures var group := if a.status in list then list[a.status] else [];
            Grouped(list[a.status := group + [a]], listType)
  {
  }

  /**
    `ListActivities`: walk the map in an order the caller cannot choose,
    print each record `list <listType>` shows (`shown`, by key), group them
    by status in `list`, and print the notice when `list` stayed empty.
  */
  method ListActivities(activities: map<int, Activity>, listType: string)
    returns (shown: map<int, Activity>, list: map<string, seq<Activity>>, noneNotice: bool)
    ensures shown == Selection(activities, listType)
    ensures Grouped(list, listType)
    ensures list == map[] <==> shown == map[]
    ensures noneNotice <==> shown == map[]
  {
    shown := map[];
    list := map[];
    var rest := activities.Keys;
    while exists k :: k in rest
      invariant rest <= activities.Keys
      invariant forall k :: k in shown <==> k in activities && k !in rest && Shows(activities[k].status, listType)
      invariant forall k :: k in shown ==> shown[k] == activities[k]
      invariant list == map[] <==> shown == map[]
      invariant Grouped(list, listType)
      decreases |rest|
    {
      var k :| k in rest;
      var activity := activities[k];
      if Shows(activity.status, listType) {
        GroupedAppend(list, listType, activity);
        var group := if activity.status in list then list[activity.status] else [];
        list := list[activity.status := group + [activity]];
        shown := shown[k := activity];
      }
      rest := rest - {k};
    }
    IsSelection(activities, listType, shown);
    noneNotice := |list| == 0;
  }

  class Tracker {
    var activities: map<int, Activity>
    var inputID: int

    /** The state as a value, to compare with the functions of module Store. */
    function Snapshot(): Table
      reads this
    {
      Table(activities, inputID)
    }

    /** The program's start: no activities, and the first id will be 1. */
    constructor ()
      ensures Snapshot() == Empty
    {
      activities := map[];
      inputID := 1;
    }

    /** The `add` case: create the record under the counter, store it, step the counter. */
    method Add(description: string, now: int) returns (activity: Activity)
      modifies this
      ensures activity == NewActivity(old(inputID), description, now)
      ensures Snapshot() == Insert(old(Snapshot()), description, now)
    {
      activity := NewActivity(inputID, description, now);
      activities := activities[activity.id := activity];
      inputID := inputID + 1;
    }

    /** `UpdateActivity`: a missing id is reported and changes nothing; a present one gets the field and the stamp. */
    method UpdateActivity(id: int, field: string, value: string, now: int) returns (found: bool)
      modifies this
      ensures found <==> id in old(activities)
      ensures Snapshot() == Update(old(Snapshot()), id, field, value, now)
    {
      if id !in activities {
        return false;
      }
      var act := activities[id];
      if field == "desc" {
        act := act.(description := value);
      } else if field == "status" {
        act := act.(status := value);
      }
      act := act.(updatedAt := now);
      activities := activities[id := act];
      found := true;
    }

    /** The `delete` case: drop the key whether or not it is there. */
    method Delete(id: int)
      modifies this
      ensures Snapshot() == Remove(old(Snapshot()), id)
    {
      activities := activities - {id};
    }

    /** One pass of the loop: the line read at time `now`, decoded and carried out in place. */
    method Handle(line: string, now: int) returns (outcome: Outcome)
      modifies this
      ensures Transition(Snapshot(), outcome) == Step(old(Snapshot()), line, now)
    {
      outcome := Execute(Parse(line), now);
    }

    /** The switch on the command word, after the line is decoded. */
    method Execute(cmd: Command, now: int) returns (outcome: Outcome)
      modifies this
      ensures Transition(Snapshot(), outcome) == Exec(old(Snapshot()), cmd, now)
    {
      match cmd
      case QuitCmd =>
        outcome := Quit;
      case AddCmd(description) =>
        var activity := Add(description, now);
        outcome := Added(activity.id);
      case UpdateCmd(id, field, value) =>
        if id !in activities {
          outcome := NotFound(id);
        } else {
          var _ := UpdateActivity(id, field, value, now);
          outcome := Updated(id);
        }
      case ListCmd(listType) =>
        var shown, _, noneNotice := ListActivities(activities, listType);
        outcome := Listed(shown, noneNotice);
      case DeleteCmd(id) =>
        Delete(id);
        outcome := Deleted(id);
      case Malformed(failure) =>
        outcome := Failed(failure);
    }

    /**
      The command loop over a finite input: handle lines until one quits or
      panics or the input runs out.
    */
    method Serve(inputs: seq<Input>) returns (outcomes: seq<Outcome>)
      modifies this
      ensures Session(Snapshot(), outcomes) == Run(old(Snapshot()), inputs)
    {
      ghost var rs := Decode(inputs);
      ghost var total := Loop(Snapshot(), rs);
      assert total == Run(old(Snapshot()), inputs);
      outcomes := [];
      var i := 0;
      while i < |inputs|
        invariant 0 <= i <= |inputs|
        invariant var rest := Loop(Snapshot(), rs[i..]);
          total == Session(rest.table, outcomes + rest.outcomes)
        decreases |inputs| - i
      {
        ghost var before := Snapshot();
        var outcome := Handle(inputs[i].line, inputs[i].clock);
        StepFrom(before, inputs, i, outcomes, total, Snapshot(), outcome);
        outcomes := outcomes + [outcome];
        if Ends(outcome) {
          return;
        }
        i := i + 1;
      }
      assert rs[i..] == [];
      assert outcomes + [] == outcomes;
    }
  }
}
