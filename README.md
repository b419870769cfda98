# Activity tracker, modelled in Dafny

The program is a command-line activity tracker written in Go (`main.go`). It
keeps a map from integer ids to activity records, plus a counter `inputID`
that numbers the next record. It reads lines from standard input and runs
the commands `add <description>`, `update <id> <field> <value>`,
`list <type>`, `delete <id>` and `quit`/`q`.

This project models that program and proves what it does:

- `activities.dfy` (module `Activities`): the record, `NewActivity`, and the
  field update of `UpdateActivity`.
- `store.dfy` (module `Store`): the tracker's state as a value, a `Table`
  holding the map and the counter. It has one function per handler effect:
  `Insert` for add, `Update` for update, `Remove` for delete and
  `Selection` for list. It also has the invariant `Valid`: every key is the
  id of its record and lies in `[1, inputID)`.
- `gostrings.dfy` (module `GoStrings`): the parts of Go's standard library
  the command parser uses. These are `strings.TrimSpace`, `strings.Trim`,
  `strings.SplitN(s, " ", 2)`, `strings.Fields` and `strconv.Atoi`,
  together with `unicode.IsSpace`. The decimal `%d` formatting (`Itoa`) is
  there too, so that lines can be written with an id in them.
- `commands.dfy` (module `Commands`): one pass of the main loop.
  - `ParseLine` trims the line and splits it at the first space.
  - `Dispatch` switches on the command word and decodes the arguments the
    way the handlers do.
  - `Exec` is the effect on the table. `Step` combines the three.
  - `Run` is the loop over a finite input. It stops after `quit` or after a
    Go run-time panic.
  - The lemmas say which lines panic, that typed commands decode to what
    they spell, and that ids are handed out as 1, 2, 3, … and never reused.
- `tracker.dfy` (module `Tracker`): the same program in its imperative
  form.
  - A `Tracker` class has the map and the counter as fields.
  - Its methods `Add`, `UpdateActivity`, `Delete`, `Execute`, `Handle` and
    the loop `Serve` change those fields in place. Each is proved to make
    exactly the change the functions above describe.
  - `ListActivities` walks the map in an unspecified order and groups the
    matching records by status, as the Go function does.
- `scenarios.dfy` (module `Scenarios`): command sequences a user would type,
  for example marking an activity done and listing it, or deleting an id
  and then updating it.

Time is an integer clock reading passed in by the caller wherever the
program calls `time.Now()`. Printing is modelled by the `Outcome` a command
reports (which records a listing shows, whether the "no activities" notice
appears, which error message is printed), not by the text.

Where the program's behaviour differs from what its usage text suggests,
the model follows the code:
- `update` accepts any status value and any field name. An unknown field
  name changes nothing but the update time (`main.go:62-71`).
- `add` or `delete` with no argument, and `update <id>` with fewer than
  three tokens, index past the end of a slice. Go panics there, which ends
  the program. They are the outcome `Failed(Panic)`, after which `Run`
  stops.
- `delete` with an id that is not an integer prints a not-found message for
  id 0. It is the outcome `Failed(InvalidId)`.
- `delete` of an id that is absent reports success and changes nothing.

## Model

| member | source | states |
|---|---|---|
| Activities.NewActivity | main.go:26-35 | the new record has the given id and description, status `todo`, and both stamps equal to the current time |
| Activities.ApplyField | main.go:62-72 | `desc` replaces only the description and `status` only the status; any other field changes neither; the record is always stamped with the current time, and its id and creation time are kept |
| Store.Insert | main.go:94-99 | add stores `NewActivity(inputID, …)` under `inputID` and steps the counter by one; the other records are untouched; on a valid table exactly one key is added and the table stays valid and correctly stamped |
| Store.Update | main.go:54-73 | an absent id changes nothing; otherwise only the record under `id` changes, to `ApplyField` of it; keys and counter are kept, and validity and stamp order are preserved |
| Store.Remove | main.go:146 | delete removes exactly that key and keeps every other record and the counter, so a deleted id is never handed out again; an absent id changes nothing |
| Store.Selection | main.go:41-43 | list shows exactly the records whose status equals the list type, or every record for `all`, unchanged |
| Store.IsSelection | main.go:41-43 | a map holding exactly the shown records of the table is the selection |
| GoStrings.TrimFunc | main.go:86 | the result neither starts nor ends with a cut character, only cut characters were removed from the two ends, and a text with nothing to trim is returned unchanged |
| GoStrings.TrimSpace | main.go:86 | the trimmed line is a slice of the line with only white space cut from its two ends, it neither starts nor ends with white space, and a line with none at its ends is unchanged |
| GoStrings.Trim | main.go:119 | the value is a slice of the token with only quote characters cut from its two ends, it neither starts nor ends with a quote, and a token with none at its ends is unchanged |
| GoStrings.IndexOfSpace | main.go:88 | the result is the position of the first space, or -1 when there is none |
| GoStrings.SplitN | main.go:88 | one part exactly when the text has no space, and then it is the text; otherwise the first part has no space, and the two parts joined by a space give back the text |
| GoStrings.SplitNAtFirstSpace | main.go:88 | a space-free head, a space and any rest split back into exactly those two pieces |
| GoStrings.Fields | main.go:111 | every field is a non-empty run without white space; no fields exactly when the text is all white space |
| GoStrings.FieldsEmpty | main.go:111-112 | `Fields` is empty exactly when every character is white space, so a trimmed, non-empty remainder always has a first field |
| GoStrings.FieldsOfJoin | main.go:111 | `Fields` of non-empty, space-free words joined by single spaces gives back the words |
| GoStrings.Atoi | main.go:112 | a parsed number lies in the 64-bit `int` range, and the token is an optional sign followed by one or more decimal digits whose value, negated after a `-`, is the number |
| GoStrings.Digits | main.go:101 | the decimal digits of `n` denote `n` and have no leading zero |
| GoStrings.Itoa | main.go:101 | the decimal text of a number is non-empty, has no white space, and starts with `-` exactly when the number is negative |
| GoStrings.AtoiOfItoa | main.go:112 | reading back the printed decimal of any 64-bit integer gives that integer |
| GoStrings.AtoiOfSigned | main.go:112 | every optional sign followed by one or more digits, leading zeros allowed, is accepted when its value fits 64 bits, and parses to that value (so `+1`, `01` and `-0` parse) |
| Commands.ParseLine | main.go:85-89 | the command word has no space, and a remainder, when present, is not all white space, so `Fields` of it has a first token |
| Commands.ParseLineRejoins | main.go:86-89 | the command word, then a space and the remainder if there is one, is exactly the trimmed line |
| Commands.UpdateArgs | main.go:111-119 | the remainder has a first field; a first field that is not an integer gives invalid-id; an integer with fewer than three fields panics; otherwise the update carries the parsed id, field 2 as the field name and field 3 with its quotes trimmed as the value, and later fields are ignored |
| Commands.DeleteArgs | main.go:139-144 | the remainder has a first field; a first field that is not an integer gives invalid-id, and otherwise the delete carries the first field's parsed value; later fields are ignored |
| Commands.Dispatch | main.go:91-151 | `add` and `list` commands come only from their own word and carry the whole remainder; every id handed to update or delete is in the 64-bit range |
| Commands.Parse | main.go:85-91 | the command of a line: every id it carries is a 64-bit integer |
| Commands.Exec | main.go:91-151 | only add moves the counter, by one, and it reports the counter's old value; quit, listings and failures leave the table unchanged; an update reports a present id and not-found an absent one; delete is `Remove`; a listing prints the notice exactly when it shows nothing; validity and stamp order are preserved |
| Commands.ExecPerCommand | main.go:91-151 | per command: quit and every failure report and leave the table; add is `Insert` reporting the old counter; update of a present id is `Update` with the command's field and value, of an absent id not-found; a listing shows `Selection` with the notice exactly when it is empty; delete is `Remove` |
| Commands.Step | main.go:85-151 | one pass of the loop changes the table only on add, update and delete, and keeps it valid |
| Commands.PanicsExactly | main.go:94-140 | a line panics exactly when it is `add` or `delete` with nothing after it, or `update` whose first token is an integer but which has fewer than three tokens |
| Commands.ReportedFailures | main.go:104-143 | the usage message appears exactly for `update` and `list` with nothing after the word, and invalid-id exactly for `update` and `delete` whose first field is not an integer |
| Commands.CommandWords | main.go:91-150 | a line quits exactly when its word is `quit` or `q`, and is reported unknown exactly when its word is none of the six command words |
| Commands.UpdateStepEffect | main.go:104-111 | an `update` line with nothing after the word reports usage and leaves the table; otherwise it does what `UpdateArgs` of its remainder asks |
| Commands.UpdateExecEffect | main.go:111-127 | an update remainder whose first field is not an integer reports invalid-id, one with fewer than three fields panics, an absent id reports not-found, each leaving the table; otherwise the table becomes `Update` of the id with field 2 and the quote-trimmed field 3 |
| Commands.UnknownStepEffect | main.go:149-150 | a line with an unknown command word reports it and leaves the table unchanged |
| Commands.ParseLineOf | main.go:85-89 | a command word, a space and an argument that does not end in white space split back into that word and that argument |
| Commands.CommandLine | main.go:85-91 | such a typed line is dispatched on its word with its argument as typed |
| Commands.AddLine | main.go:94-97 | `add <description>` adds exactly the description typed |
| Commands.UpdateLine | main.go:104-119 | `update <id> <field> <token>` with the id in decimal asks to set that field of that id to the token without its surrounding quotes |
| Commands.UpdatePlainLine | main.go:104-119 | a value with no quote at either end is set exactly as typed |
| Commands.UpdateDispatch | main.go:111-119 | three or more fields whose first is the integer `id` decode to an update of `id` with the second field and the third without its quotes; later fields are ignored |
| Commands.DispatchUpdateWord | main.go:104-111 | the `update` word with a remainder is decoded by `UpdateArgs` |
| Commands.DeleteLine | main.go:138-146 | `delete <id>` with the id in decimal asks to delete exactly that id |
| Commands.DeleteWord | main.go:138-146 | `delete` followed by one word that parses as `id` asks to delete `id` |
| Commands.DeleteDispatch | main.go:139-146 | a remainder whose first field parses as `id` decodes to deleting `id`, whatever follows that field |
| Commands.DispatchDeleteWord | main.go:138-140 | the `delete` word with a remainder is decoded by `DeleteArgs` |
| Commands.ListLine | main.go:129-136 | `list <type>` lists under the whole remainder as typed |
| Commands.LastAfterSpace | main.go:86-88 | what follows a space in a trimmed line does not end in white space |
| Commands.Decode | main.go:84-88 | every input line gives one request, whose command is `Parse` of that line and which is carried out at that line's clock reading |
| Commands.Loop | main.go:84-93 | one outcome per request carried out; the loop stops early only right after quit or a panic, and never after any other outcome; the counter never decreases; validity is preserved |
| Commands.Run | main.go:75-93 | the same for a session over input lines |
| Commands.LoopFrom | main.go:84-152 | a session splits into the next request and, unless it ended the loop, the rest |
| Commands.StepOfDecoded | main.go:85-91 | handling an input line is carrying out its decoded request |
| Commands.StepFrom | main.go:84-152 | a session splits into one `Step` on the next line and, unless it ended the loop, the lines after it |
| Commands.IdsAreConsecutive | main.go:94-99 | the adds of any session receive consecutive ids starting at the counter, and the counter ends just past the last of them |
| Commands.SessionIdsNeverReused | main.go:76-99 | from the start, the ids handed out are 1, 2, 3, … in order, so no id is handed out twice, even after a delete |
| Commands.StampsStayOrdered | main.go:71 | with a clock that never runs backwards, every record's update time is between its creation time and the last clock reading |
| Commands.SessionStampsOrdered | main.go:27-33 | the same for a whole session from the empty table |
| Tracker.ListActivities | main.go:37-52 | the records shown are exactly `Selection`; each group of `list` holds records of its own status, a status being listed; `list` is empty exactly when nothing is shown, and the notice is printed exactly then |
| Tracker.GroupedAppend | main.go:43 | appending a shown record to the group of its status keeps the listing grouped |
| Tracker.Tracker.constructor | main.go:76-77 | the tracker starts with no activities and the counter at 1 |
| Tracker.Tracker.Add | main.go:94-99 | the fields change exactly as `Insert` says, and the record created is `NewActivity` under the old counter |
| Tracker.Tracker.UpdateActivity | main.go:54-73 | the fields change exactly as `Update` says, and the id is reported found exactly when it was present |
| Tracker.Tracker.Delete | main.go:146 | the fields change exactly as `Remove` says |
| Tracker.Tracker.Execute | main.go:91-151 | a decoded command changes the fields and reports exactly as `Exec` says |
| Tracker.Tracker.Handle | main.go:85-151 | one line changes the fields and reports exactly as `Step` says |
| Tracker.Tracker.Serve | main.go:84-152 | the loop over a finite input reports the outcomes and leaves the state that `Run` gives |
| Scenarios.ParseDoneLine | main.go:104-119 | `update <id> status done` decodes to setting that id's status to `done` |
| Scenarios.StepDone | main.go:121-127 | a line that marks a present id done makes the table `Update` of it: status done, stamped now, description, creation time, keys and all other records kept; on an absent id it reports not-found and changes nothing |
| Scenarios.DoneIsListedUnderDone | main.go:37-47 | after marking an id done, `list done` shows it and `list todo` does not |
| Scenarios.DeletedStaysDeleted | main.go:121-146 | after deleting an id, the id is gone, and a later update of it reports not-found and changes nothing |
| Scenarios.EmptyListAll | main.go:49-51 | on the empty table `list all` shows nothing and prints the notice |

## Left out

- Standard input, and the end of input: at end of file `ReadString`
  returns an empty line and an ignored error, so the Go loop goes on
  reporting an unknown command forever. The model takes a finite sequence
  of lines and stops when it runs out.
- The banner and all printed text. The outcome of each command stands for
  its message; time formatting with `time.RFC822` is not modelled.
- `time.Now()`: it becomes an integer clock reading passed with each line.
  Nothing is assumed about it except in `StampsStayOrdered`, which requires
  a clock that never runs backwards.
- The printing order of `list`: Go's map iteration order is unspecified.
  `ListActivities` picks the keys in an unspecified order, and its contract
  is stated on the set of records shown and on the grouping, not on an
  order.
- Tracker.ListActivities: the order of records inside a group of `list` is
  not stated, because it follows the map iteration order.
- Overflow of the counter `inputID` past the 64-bit range after 2^63 adds.
  Integers are unbounded here.
- Byte-level UTF-8: strings are sequences of Unicode scalar values.
  Invalid UTF-8 input, which Go's `TrimSpace` and `Fields` treat byte by
  byte, is not modelled.
- `strconv.Atoi`'s two error kinds, syntax and range, are one failure
  here. The handlers treat them alike.
- Commands.Dispatch: its own contract states the `add` and `list` cases
  and bounds the ids. The `update` and `delete` cases are stated by
  `DispatchUpdateWord` and `DispatchDeleteWord` together with the contracts
  of `UpdateArgs` and `DeleteArgs`; quit, usage, invalid-id, panic and
  unknown by `CommandWords`, `ReportedFailures` and `PanicsExactly`.
