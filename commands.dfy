/**
  One pass of the command loop as a transition on a Table: the line is
  trimmed, split at its first space, and dispatched on the text before it.
  A Go run-time panic (indexing past the end of the split line) ends the
  program; it is the outcome Panic here, after which a session stops.
*/
module Commands {
  import opened Wrappers
  import opened GoStrings
  import opened Activities
  import opened Store

  /**
    Why a line is not carried out: missing arguments, an id that is not an
    integer, an unknown command word, or a Go run-time panic.
  */
  datatype Failure = Usage | InvalidId | Unknown | Panic

  /** What one command reports; the printed text itself is not modelled. */
  datatype Outcome =
    | Quit
    | Added(id: int)
    | Updated(id: int)
    | NotFound(id: int)
    | Listed(shown: map<int, Activity>, noneNotice: bool)
    | Deleted(id: int)
    | Failed(failure: Failure)
  {
    /** The outcomes after which the table may differ. */
    predicate Changes() {
      Added? || Updated? || Deleted?
    }
  }

  datatype Transition = Transition(table: Table, outcome: Outcome)

  /** A line split as the loop splits it: the command word and what follows its first space. */
  datatype Line = Line(command: string, rest: Option<string>)

  /**
    Trim the line, then `SplitN(input, " ", 2)`. Because the line is
    trimmed, a remainder is never empty and never all white space, so
    `Fields` of it always has a first token.
  */
  function ParseLine(line: string): (c: Line)
    ensures ' ' !in c.command
    ensures c.rest.Some? ==> !AllIn(c.rest.value, IsSpace)
  {
    var input := TrimSpace(line);
    var parts := SplitN(input);
    if |parts| == 1 then Line(parts[0], None)
    else
      var rest := parts[1];
      LastAfterSpace(parts[0], rest, input);
      Line(parts[0], Some(rest))
  }

  /** What follows a space in a text that does not end in white space does not end in it either. */
  lemma LastAfterSpace(head: string, rest: string, input: string)
    requires head + [' '] + rest == input
    requires input == [] || !IsSpace(input[|input| - 1])
    ensures rest != [] && !IsSpace(rest[|rest| - 1])
  {
    assert input[|input| - 1] == (head + [' '] + rest)[|input| - 1];
  }

  /**
    The split loses nothing but the white space trimmed from the ends of the
    line and the one space after the command word.
  */
  lemma ParseLineRejoins(line: string)
    ensures var c := ParseLine(line);
            && (c.rest.None? ==> c.command == TrimSpace(line))
            && (c.rest.Some? ==> c.command + " " + c.rest.value == TrimSpace(line))
  {
  }

  /**
    What a line asks for, with its arguments decoded in the order the
    handlers decode them. A line that cannot be carried out is Malformed,
    with the outcome it reports.
  */
  datatype Command =
    | QuitCmd
    | AddCmd(description: string)
    | UpdateCmd(id: int, field: string, value: string)
    | ListCmd(listType: string)
    | DeleteCmd(id: int)
    | Malformed(failure: Failure)

  /**
    The arguments of `update`: the remainder is split into fields, the
    first is parsed as the id, and only then is the count checked; the
    second field is the field name and the third, stripped of quotes, the
    value. Fields past the third are ignored.
  */
  function UpdateArgs(rest: string): (cmd: Command)
    requires !AllIn(rest, IsSpace)
    ensures Fields(rest) != []
    ensures cmd.UpdateCmd? || cmd == Malformed(InvalidId) || cmd == Malformed(Panic)
    ensures cmd == Malformed(InvalidId) <==> Atoi(Fields(rest)[0]).None?
    ensures cmd == Malformed(Panic) <==> Atoi(Fields(rest)[0]).Some? && |Fields(rest)| < 3
    ensures cmd.UpdateCmd? ==>
      var tokens := Fields(rest);
      && |tokens| >= 3
      && Atoi(tokens[0]) == Some(cmd.id)
      && cmd.field == tokens[1]
      && cmd.value == Trim(tokens[2], Quotes)
    ensures cmd.UpdateCmd? ==> MinInt64 <= cmd.id <= MaxInt64
  {
    var tokens := Fields(rest);
    FieldsEmpty(rest);
    match Atoi(tokens[0])
    case None => Malformed(InvalidId)
    case Some(id) =>
      if |tokens| < 3 then Malformed(Panic)
      else UpdateCmd(id, tokens[1], Trim(tokens[2], Quotes))
  }

  /** The argument of `delete`: the first field of the remainder, parsed as the id. */
  function DeleteArgs(rest: string): (cmd: Command)
    requires !AllIn(rest, IsSpace)
    ensures Fields(rest) != []
    ensures cmd.DeleteCmd? || cmd == Malformed(InvalidId)
    ensures cmd == Malformed(InvalidId) <==> Atoi(Fields(rest)[0]).None?
    ensures cmd.DeleteCmd? ==> Atoi(Fields(rest)[0]) == Some(cmd.id)
    ensures cmd.DeleteCmd? ==> MinInt64 <= cmd.id <= MaxInt64
  {
    FieldsEmpty(rest);
    match Atoi(Fields(rest)[0])
    case None => Malformed(InvalidId)
    case Some(id) => DeleteCmd(id)
  }

  /**
    The dispatch of the loop on the command word: `add` and `list` take the
    whole remainder, `update` and `delete` decode it; a missing remainder
    is a usage message for `update` and `list` and a panic for `add` and
    `delete`.
  */
  function Dispatch(c: Line): (cmd: Command)
    requires c.rest.Some? ==> !AllIn(c.rest.value, IsSpace)
    ensures cmd.AddCmd? ==> c == Line("add", Some(cmd.description))
    ensures cmd.ListCmd? ==> c == Line("list", Some(cmd.listType))
    ensures cmd.UpdateCmd? || cmd.DeleteCmd? ==> MinInt64 <= cmd.id <= MaxInt64
  {
    if c.command == "quit" || c.command == "q" then
      QuitCmd
    else if c.command == "add" then
      if c.rest.None? then Malformed(Panic) else AddCmd(c.rest.value)
    else if c.command == "update" then
      if c.rest.None? then Malformed(Usage) else UpdateArgs(c.rest.value)
    else if c.command == "list" then
      if c.rest.None? then Malformed(Usage) else ListCmd(c.rest.value)
    else if c.command == "delete" then
      if c.rest.None? then Malformed(Panic) else DeleteArgs(c.rest.value)
    else
      Malformed(Unknown)
  }

  /**
    The command a line asks for. `add` and `list` take everything after the
    first space of the trimmed line, and the ids of `update` and `delete` are
    64-bit integers.
  */
  function Parse(line: string): (cmd: Command)
    ensures cmd.UpdateCmd? || cmd.DeleteCmd? ==> MinInt64 <= cmd.id <= MaxInt64
  {
    Dispatch(ParseLine(line))
  }

  /**
    The effect of a decoded command on the table at time `now`. Errors,
    quit, panics and listings leave the table as it was; only add moves the
    counter, by one, and it hands out the counter's old value.
  */
  function Exec(t: Table, cmd: Command, now: int): (r: Transition)
    ensures r.table.inputID == t.inputID + (if r.outcome.Added? then 1 else 0)
    ensures r.outcome.Added? ==> r.outcome.id == t.inputID
    ensures !r.outcome.Changes() ==> r.table == t
    ensures r.outcome.Updated? ==> r.outcome.id in t.activities
    ensures r.outcome.NotFound? ==> r.outcome.id !in t.activities
    ensures r.outcome.Deleted? ==> r.table == Remove(t, r.outcome.id)
    ensures r.outcome.Listed? ==> (r.outcome.noneNotice <==> r.outcome.shown == map[])
    ensures Valid(t) ==> Valid(r.table)
    ensures Stamped(t, now) ==> Stamped(r.table, now)
  {
    match cmd
    case QuitCmd => Transition(t, Quit)
    case AddCmd(description) => Transition(Insert(t, description, now), Added(t.inputID))
    case UpdateCmd(id, field, value) =>
      if id !in t.activities then Transition(t, NotFound(id))
      else Transition(Update(t, id, field, value, now), Updated(id))
    case ListCmd(listType) =>
      var shown := Selection(t.activities, listType);
      Transition(t, Listed(shown, shown == map[]))
    case DeleteCmd(id) => Transition(Remove(t, id), Deleted(id))
    case Malformed(failure) => Transition(t, Failed(failure))
  }

  /**
    What each command does, in terms of the table operations: quit and the
    failures report and change nothing, add inserts under the counter,
    update changes a present id and reports an absent one, a listing shows
    the selection, and delete removes the key.
  */
  lemma ExecPerCommand(t: Table, cmd: Command, now: int)
    ensures cmd.QuitCmd? ==> Exec(t, cmd, now) == Transition(t, Quit)
    ensures cmd.AddCmd? ==> Exec(t, cmd, now) == Transition(Insert(t, cmd.description, now), Added(t.inputID))
    ensures cmd.UpdateCmd? && cmd.id !in t.activities ==> Exec(t, cmd, now) == Transition(t, NotFound(cmd.id))
    ensures cmd.UpdateCmd? && cmd.id in t.activities ==>
      Exec(t, cmd, now) == Transition(Update(t, cmd.id, cmd.field, cmd.value, now), Updated(cmd.id))
    ensures cmd.ListCmd? ==>
      var shown := Selection(t.activities, cmd.listType);
      Exec(t, cmd, now) == Transition(t, Listed(shown, shown == map[]))
    ensures cmd.DeleteCmd? ==> Exec(t, cmd, now) == Transition(Remove(t, cmd.id), Deleted(cmd.id))
    ensures cmd.Malformed? ==> Exec(t, cmd, now) == Transition(t, Failed(cmd.failure))
  {
  }

  /**
    One pass of the loop: the line read at time `now`, decoded and carried
    out. Only add, update and delete change the table, and it stays valid.
  */
  function Step(t: Table, line: string, now: int): (r: Transition)
    ensures !r.outcome.Changes() ==> r.table == t
    ensures Valid(t) ==> Valid(r.table)
  {
    Exec(t, Parse(line), now)
  }

  /**
    The lines that make the program panic: `add` or `delete` with nothing
    after them, and `update` whose id parses but which has fewer than three
    tokens. Every other split line, the empty one included, is handled.
  */
  lemma PanicsExactly(c: Line)
    requires c.rest.Some? ==> !AllIn(c.rest.value, IsSpace)
    ensures Dispatch(c) == Malformed(Panic) <==>
      || (c.rest.None? && (c.command == "add" || c.command == "delete"))
      || (c.rest.Some? && c.command == "update" && (FieldsEmpty(c.rest.value);
            Atoi(Fields(c.rest.value)[0]).Some? && |Fields(c.rest.value)| < 3))
  {
  }

  /**
    The two failures the loop reports with a message: usage, for `update`
    and `list` with nothing after them, and invalid-id, for `update` and
    `delete` whose first token is not an integer.
  */
  lemma ReportedFailures(c: Line)
    requires c.rest.Some? ==> !AllIn(c.rest.value, IsSpace)
    ensures Dispatch(c) == Malformed(Usage) <==> c.rest.None? && (c.command == "update" || c.command == "list")
    ensures Dispatch(c) == Malformed(InvalidId) <==>
      && c.rest.Some? && (c.command == "update" || c.command == "delete")
      && (FieldsEmpty(c.rest.value); Atoi(Fields(c.rest.value)[0]).None?)
  {
  }

  /**
    `quit` and `q` end the loop whatever follows them, and a word the loop
    does not know is reported as unknown; both leave the table alone.
  */
  lemma CommandWords(c: Line)
    requires c.rest.Some? ==> !AllIn(c.rest.value, IsSpace)
    ensures Dispatch(c) == QuitCmd <==> c.command == "quit" || c.command == "q"
    ensures Dispatch(c) == Malformed(Unknown) <==>
      c.command !in ["quit", "q", "add", "update", "list", "delete"]
  {
  }

  /**
    An `update` line with nothing after the word prints the usage and changes
    nothing; otherwise it does what its arguments decode to (UpdateExecEffect).
  */
  lemma UpdateStepEffect(t: Table, line: string, now: int)
    requires ParseLine(line).command == "update"
    ensures var c := ParseLine(line);
            && (c.rest.None? ==> Step(t, line, now) == Transition(t, Failed(Usage)))
            && (c.rest.Some? ==> Step(t, line, now) == Exec(t, UpdateArgs(c.rest.value), now))
  {
    var c := ParseLine(line);
    assert Step(t, line, now) == Exec(t, Dispatch(c), now);
    if c.rest.Some? {
      assert c == Line("update", Some(c.rest.value));
      DispatchUpdateWord(c.rest.value);
    }
  }

  /**
    The arguments of `update`, carried out: a first field that is not an
    integer reports invalid-id, fewer than three fields panic, and an absent
    id reports not-found, each leaving the table as it was; otherwise only
    the record under the id changes, its field named by the second field set
    to the third with its quotes trimmed.
  */
  lemma UpdateExecEffect(t: Table, rest: string, now: int)
    requires !AllIn(rest, IsSpace)
    ensures var tokens := Fields(rest);
            var r := Exec(t, UpdateArgs(rest), now);
            && tokens != []
            && (Atoi(tokens[0]).None? ==> r == Transition(t, Failed(InvalidId)))
            && (Atoi(tokens[0]).Some? && |tokens| < 3 ==> r == Transition(t, Failed(Panic)))
            && (Atoi(tokens[0]).Some? && |tokens| >= 3 && Atoi(tokens[0]).value !in t.activities ==>
                  r == Transition(t, NotFound(Atoi(tokens[0]).value)))
            && (Atoi(tokens[0]).Some? && |tokens| >= 3 && Atoi(tokens[0]).value in t.activities ==>
                  var id := Atoi(tokens[0]).value;
                  r == Transition(Update(t, id, tokens[1], Trim(tokens[2], Quotes), now), Updated(id)))
  {
  }

  /** A line whose command word the loop does not know reports it and changes nothing. */
  lemma UnknownStepEffect(t: Table, line: string, now: int)
    requires ParseLine(line).command !in ["quit", "q", "add", "update", "list", "delete"]
    ensures Step(t, line, now) == Transition(t, Failed(Unknown))
  {
    CommandWords(ParseLine(line));
  }

  // ------------------------------------------------- commands as users type them

  /** The line a user types to give `word` the arguments `args`: the word, one space, the arguments. */
  function Typed(word: string, args: string): string {
    word + " " + args
  }

  /** A command word, a space and an argument that does not end in white space split back apart. */
  lemma ParseLineOf(word: string, rest: string)
    requires word != [] && !IsSpace(word[0]) && ' ' !in word
    requires rest != [] && !IsSpace(rest[|rest| - 1])
    ensures ParseLine(Typed(word, rest)) == Line(word, Some(rest))
  {
    var line := Typed(word, rest);
    assert line[0] == word[0] && line[|line| - 1] == rest[|rest| - 1];
    assert TrimSpace(line) == line;
    SplitNAtFirstSpace(word, rest);
  }

  /** A typed command is dispatched to the handler its word names, with the arguments as typed. */
  lemma CommandLine(word: string, rest: string)
    requires word != [] && !IsSpace(word[0]) && ' ' !in word
    requires rest != [] && !IsSpace(rest[|rest| - 1])
    ensures !AllIn(rest, IsSpace)
    ensures Parse(Typed(word, rest)) == Dispatch(Line(word, Some(rest)))
  {
    ParseLineOf(word, rest);
  }

  /** `add <description>` stores the description as typed after the first space. */
  lemma AddLine(description: string)
    requires description != [] && !IsSpace(description[|description| - 1])
    ensures Parse(Typed("add", description)) == AddCmd(description)
  {
    CommandLine("add", description);
  }

  /** A space-joined list of words ends where its last word ends. */
  lemma {:induction false} JoinSpaceLast(tokens: seq<string>)
    requires tokens != [] && AreWords(tokens)
    ensures var s := JoinSpace(tokens);
            var w := tokens[|tokens| - 1];
            s != [] && s[|s| - 1] == w[|w| - 1]
  {
    if |tokens| > 1 {
      JoinSpaceLast(tokens[1..]);
    }
  }

  /**
    `update <id> <field> <token>`, with the id written as `%d` prints it,
    asks to set `field` of that id to the token stripped of quotes at both
    ends.
  */
  lemma UpdateLine(id: int, field: string, token: string)
    requires MinInt64 <= id <= MaxInt64
    requires AreWords([field, token])
    ensures Parse(Typed("update", JoinSpace([Itoa(id), field, token])))
         == UpdateCmd(id, field, Trim(token, Quotes))
  {
    var tokens := [Itoa(id), field, token];
    assert AreWords(tokens);
    var rest := JoinSpace(tokens);
    JoinSpaceLast(tokens);
    CommandLine("update", rest);
    AtoiOfItoa(id);
    FieldsOfJoin(tokens);
    UpdateDispatch(rest, tokens, id);
  }

  /** A value with no quote at either end is stored exactly as typed. */
  lemma UpdatePlainLine(id: int, field: string, value: string)
    requires MinInt64 <= id <= MaxInt64
    requires field != [] && NoneIn(field, IsSpace)
    requires value != [] && NoneIn(value, IsSpace)
    requires value[0] !in Quotes && value[|value| - 1] !in Quotes
    ensures Parse(Typed("update", JoinSpace([Itoa(id), field, value]))) == UpdateCmd(id, field, value)
  {
    assert AreWords([field, value]);
    UpdateLine(id, field, value);
  }

  /**
    A remainder whose first field is the integer `id` and which has at least
    three fields asks to update `id`; fields past the third are ignored.
  */
  lemma UpdateDispatch(rest: string, tokens: seq<string>, id: int)
    requires !AllIn(rest, IsSpace) && Fields(rest) == tokens && |tokens| >= 3
    requires Atoi(tokens[0]) == Some(id)
    ensures Dispatch(Line("update", Some(rest))) == UpdateCmd(id, tokens[1], Trim(tokens[2], Quotes))
  {
    DispatchUpdateWord(rest);
  }

  lemma DispatchUpdateWord(rest: string)
    requires !AllIn(rest, IsSpace)
    ensures Dispatch(Line("update", Some(rest))) == UpdateArgs(rest)
  {
  }

  /** `delete <id>` asks to remove exactly that id. */
  lemma DeleteLine(id: int)
    requires MinInt64 <= id <= MaxInt64
    ensures Parse(Typed("delete", Itoa(id))) == DeleteCmd(id)
  {
    assert AreWords([Itoa(id)]);
    AtoiOfItoa(id);
    DeleteWord(Itoa(id), id);
  }

  lemma DeleteWord(word: string, id: int)
    requires AreWords([word]) && Atoi(word) == Some(id)
    ensures Parse(Typed("delete", word)) == DeleteCmd(id)
  {
    JoinSpaceLast([word]);
    CommandLine("delete", word);
    FieldsOfJoin([word]);
    assert Fields(word)[0] == word;
    DeleteDispatch(word, id);
  }

  /** A remainder whose first field is the integer `id` asks to delete `id`; later fields are ignored. */
  lemma DeleteDispatch(rest: string, id: int)
    requires !AllIn(rest, IsSpace) && Fields(rest) != [] && Atoi(Fields(rest)[0]) == Some(id)
    ensures Dispatch(Line("delete", Some(rest))) == DeleteCmd(id)
  {
    DispatchDeleteWord(rest);
  }

  lemma DispatchDeleteWord(rest: string)
    requires !AllIn(rest, IsSpace)
    ensures Dispatch(Line("delete", Some(rest))) == DeleteArgs(rest)
  {
  }

  /** `list <listType>` asks for the selection under the whole remainder. */
  lemma ListLine(listType: string)
    requires listType != [] && !IsSpace(listType[|listType| - 1])
    ensures Parse(Typed("list", listType)) == ListCmd(listType)
  {
    CommandLine("list", listType);
  }

  // --------------------------------------------------------------- sessions

  /** One line of input with the clock reading at which it is handled. */
  datatype Input = Input(line: string, clock: int)

  datatype Session = Session(table: Table, outcomes: seq<Outcome>)

  /** The outcomes after which the loop does not read another line. */
  predicate Ends(o: Outcome) {
    o.Quit? || o == Failed(Panic)
  }

  /** A decoded line with the clock reading at which it is carried out. */
  datatype Request = Request(cmd: Command, clock: int)

  /** Each line of the input decoded on its own: parsing does not depend on the table. */
  function Decode(inputs: seq<Input>): (rs: seq<Request>)
    ensures |rs| == |inputs|
    ensures forall i :: 0 <= i < |inputs| ==> rs[i].cmd == Parse(inputs[i].line)
    ensures forall i :: 0 <= i < |inputs| ==> rs[i].clock == inputs[i].clock
  {
    seq(|inputs|, i requires 0 <= i < |inputs| => Request(Parse(inputs[i].line), inputs[i].clock))
  }

  /**
    The command loop over decoded requests: one outcome per request carried
    out, and the loop stops right after quit or a panic and nowhere else.
  */
  function Loop(t: Table, rs: seq<Request>): (s: Session)
    ensures |s.outcomes| <= |rs|
    ensures |s.outcomes| < |rs| ==> s.outcomes != [] && Ends(s.outcomes[|s.outcomes| - 1])
    ensures forall i :: 0 <= i < |s.outcomes| - 1 ==> !Ends(s.outcomes[i])
    ensures s.table.inputID >= t.inputID
    ensures Valid(t) ==> Valid(s.table)
    decreases |rs|
  {
    if rs == [] then Session(t, [])
    else
      var step := Exec(t, rs[0].cmd, rs[0].clock);
      if Ends(step.outcome) then Session(step.table, [step.outcome])
      else
        var rest := Loop(step.table, rs[1..]);
        Session(rest.table, [step.outcome] + rest.outcomes)
  }

  /** The command loop over a finite input, each line handled at its clock reading. */
  function Run(t: Table, inputs: seq<Input>): (s: Session)
    ensures |s.outcomes| <= |inputs|
    ensures |s.outcomes| < |inputs| ==> s.outcomes != [] && Ends(s.outcomes[|s.outcomes| - 1])
    ensures forall i :: 0 <= i < |s.outcomes| - 1 ==> !Ends(s.outcomes[i])
    ensures s.table.inputID >= t.inputID
    ensures Valid(t) ==> Valid(s.table)
  {
    Loop(t, Decode(inputs))
  }

  /** Handling the `i`-th line is carrying out its decoded request. */
  lemma StepOfDecoded(t: Table, inputs: seq<Input>, i: nat)
    requires i < |inputs|
    ensures Step(t, inputs[i].line, inputs[i].clock) == Exec(t, Decode(inputs)[i].cmd, Decode(inputs)[i].clock)
  {
  }

  /**
    A session split after `i` requests: whatever `done` the first `i`
    reported, the next request is carried out on its own and then, unless it
    ended the session, the requests after it.
  */
  lemma LoopFrom(t: Table, rs: seq<Request>, i: nat, done: seq<Outcome>, total: Session)
    requires i < |rs|
    requires var rest := Loop(t, rs[i..]); total == Session(rest.table, done + rest.outcomes)
    ensures var step := Exec(t, rs[i].cmd, rs[i].clock);
            var rest := Loop(step.table, rs[i + 1..]);
            if Ends(step.outcome) then total == Session(step.table, done + [step.outcome])
            else total == Session(rest.table, done + [step.outcome] + rest.outcomes)
  {
    assert rs[i..][1..] == rs[i + 1..];
    var step := Exec(t, rs[i].cmd, rs[i].clock);
    if !Ends(step.outcome) {
      var rest := Loop(step.table, rs[i + 1..]);
      assert done + ([step.outcome] + rest.outcomes) == done + [step.outcome] + rest.outcomes;
    }
  }

  /**
    The same split over the input lines, with the next line handled as one
    Step into the table `after` with outcome `o`.
  */
  lemma StepFrom(t: Table, inputs: seq<Input>, i: nat, done: seq<Outcome>, total: Session, after: Table, o: Outcome)
    requires i < |inputs|
    requires var rest := Loop(t, Decode(inputs)[i..]); total == Session(rest.table, done + rest.outcomes)
    requires Transition(after, o) == Step(t, inputs[i].line, inputs[i].clock)
    ensures Ends(o) ==> total == Session(after, done + [o])
    ensures !Ends(o) ==>
      var rest := Loop(after, Decode(inputs)[i + 1..]);
      total == Session(rest.table, done + [o] + rest.outcomes)
  {
    LoopFrom(t, Decode(inputs), i, done, total);
    StepOfDecoded(t, inputs, i);
  }

  /** The ids reported by the add commands, in order. */
  function AddedIds(outcomes: seq<Outcome>): seq<int> {
    if outcomes == [] then []
    else (if outcomes[0].Added? then [outcomes[0].id] else []) + AddedIds(outcomes[1..])
  }

  /**
    However adds, updates, deletes and listings interleave, the adds of a
    session receive consecutive ids starting at the counter, and the counter
    ends just past the last of them.
  */
  lemma {:induction false} IdsAreConsecutive(t: Table, rs: seq<Request>)
    ensures var s := Loop(t, rs);
            var ids := AddedIds(s.outcomes);
            && s.table.inputID == t.inputID + |ids|
            && forall i :: 0 <= i < |ids| ==> ids[i] == t.inputID + i
    decreases |rs|
  {
    if rs != [] {
      var step := Exec(t, rs[0].cmd, rs[0].clock);
      var o := step.outcome;
      var head := if o.Added? then [o.id] else [];
      if Ends(o) {
        assert Loop(t, rs) == Session(step.table, [o]);
        assert AddedIds([o]) == head + AddedIds([]);
      } else {
        var rest := Loop(step.table, rs[1..]);
        assert Loop(t, rs) == Session(rest.table, [o] + rest.outcomes);
        IdsAreConsecutive(step.table, rs[1..]);
        assert ([o] + rest.outcomes)[1..] == rest.outcomes;
        assert AddedIds([o] + rest.outcomes) == head + AddedIds(rest.outcomes);
      }
    }
  }

  /**
    From the start of a session the ids handed out are 1, 2, 3, ... in
    order, so no id is ever handed out twice, even after a deletion.
  */
  lemma SessionIdsNeverReused(inputs: seq<Input>)
    ensures var ids := AddedIds(Run(Empty, inputs).outcomes);
            && (forall i :: 0 <= i < |ids| ==> ids[i] == i + 1)
            && (forall i, j :: 0 <= i < j < |ids| ==> ids[i] < ids[j])
  {
    IdsAreConsecutive(Empty, Decode(inputs));
  }

  /** The clock never runs backwards over the requests and starts at `c` or later. */
  predicate ClockFrom(c: int, rs: seq<Request>) {
    && (forall i :: 0 <= i < |rs| ==> c <= rs[i].clock)
    && (forall i, j :: 0 <= i <= j < |rs| ==> rs[i].clock <= rs[j].clock)
  }

  /**
    With a clock that never runs backwards, every record of the table at the
    end of a session was updated no earlier than it was created and no
    later than the last clock reading.
  */
  lemma {:induction false} StampsStayOrdered(t: Table, c: int, rs: seq<Request>)
    requires Stamped(t, c) && ClockFrom(c, rs)
    ensures Stamped(Loop(t, rs).table, if rs == [] then c else rs[|rs| - 1].clock)
    decreases |rs|
  {
    if rs != [] {
      var now := rs[0].clock;
      var last := rs[|rs| - 1].clock;
      var step := Exec(t, rs[0].cmd, now);
      assert Stamped(t, now);
      assert Stamped(step.table, now);
      if Ends(step.outcome) {
        assert Loop(t, rs).table == step.table;
        assert Stamped(step.table, last);
      } else {
        assert Loop(t, rs).table == Loop(step.table, rs[1..]).table;
        assert ClockFrom(now, rs[1..]);
        StampsStayOrdered(step.table, now, rs[1..]);
        if |rs| == 1 {
          assert Stamped(Loop(step.table, rs[1..]).table, last);
        }
      }
    }
  }

  /** Over a whole input whose clock never runs backwards, the stamps stay ordered. */
  lemma SessionStampsOrdered(inputs: seq<Input>)
    requires inputs != []
    requires forall i, j :: 0 <= i <= j < |inputs| ==> inputs[i].clock <= inputs[j].clock
    ensures Stamped(Run(Empty, inputs).table, inputs[|inputs| - 1].clock)
  {
    var rs := Decode(inputs);
    StampsStayOrdered(Empty, rs[0].clock, rs);
  }

}
