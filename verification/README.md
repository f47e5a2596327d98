# todo-cli: a Dafny model of the line-oriented todo store

The program is a command-line todo manager that keeps pending todos in
`todo.txt` and completed ones in `done.txt`, one entry per line. This project
models its store and its commands (`src/todo.bs.js`) in Dafny and proves what
they do to the two files.

- `lines.dfy` (module `Lines`): the string operations the store is built on.
  - `Split` is `split("\n")` and `Join` is `join("\n")`.
  - `NonEmpty` is the `filter` that drops empty lines, and `ReadLines` is
    `readLinesFile` on a given content.
  - The lemmas cover round trips (`Join(Split(s)) == s`, and
    `Split(Join(ls)) == ls` for a non-empty list of one-line parts), how
    splitting treats concatenation, and what reading gives after an append
    or a rewrite.
- `listing.dfy` (module `Listing`): the text that `ls` prints.
  - `ReduceWithIndex` is the `Belt_Array.reduceWithIndex` fold, and `Decimal`
    renders the entry numbers.
  - `NewestFirst` is the reference listing: the entries newest first, each
    under its 1-based position in the file.
  - `Render`'s contract states that, for one-line todos, the fold's text
    splits into those lines, each ended by a line break.
- `todo.dfy` (module `Todo`): the store as a class `TodoDb`.
  - Two string fields, `todo` and `done`, hold the two files' contents.
  - `AppendToFile` and `DeleteLineFile` rewrite one field and leave the other
    alone. `AddTodo`, `DeleteTodo` and `DoneTodo` take the optional command
    argument and return an `Outcome` that stands for the console message.
  - `IsValidTodo`, `ListTodos` and `TodoReport` are functions of the current
    state.
  - Three client methods replay sessions from an empty start, and the model's
    contracts alone prove their results.

The store has one quirk, and the model keeps it as the source has it. A
delete rewrites the file as the remaining lines joined by `"\n"`, with no
line break at the end. An append always writes `text + "\n"`. So the first
`add` of a one-line text after a `del` or `done` that leaves todos behind
does not add a line. It glues the text onto the last pending line. A text
that holds line breaks has only its first line glued on, and the rest
become new lines. `DeleteLineFile` states
that the rewritten content has no trailing break. `AppendToFile` and the
lemma `Lines.AppendAfterRewriteGlues` state the glued result, and
`Todo.AddAfterDeleteGlues` shows it on a concrete session.

An argument to `del` or `done` that is not a number reports a missing
NUMBER, because `Belt_Int.fromString` gives `undefined` (src/todo.bs.js:173,
src/todo.bs.js:176). The commands therefore take the parsed argument as
`Option<int>`, and `None` covers both cases.

## Model

| member | source | states |
|---|---|---|
| `Lines.Split` | src/todo.bs.js:76 | `split("\n")` gives at least one piece, and no piece holds a line break |
| `Lines.Join` | src/todo.bs.js:84 | `join("\n")` starts with the first part and holds a line break as soon as there are two parts; `JoinSplit` and `SplitJoin` prove it is the inverse of `Split` |
| `Lines.JoinSplit` | src/todo.bs.js:76 | joining the pieces of a split with `"\n"` gives the original text back |
| `Lines.SplitJoin` | src/todo.bs.js:84 | splitting the `"\n"`-join of a non-empty list of one-line parts gives exactly those parts back (the empty list joins to `""`, which splits into `[""]`) |
| `Lines.SplitConcat` | src/todo.bs.js:76 | the split of `a + b` is the split of `a` and the split of `b` with the boundary pieces glued together |
| `Lines.SplitAtLineBreak` | src/todo.bs.js:76 | a line break between two texts separates their splits exactly |
| `Lines.SplitOneLine` | src/todo.bs.js:76 | a text without line breaks splits into itself alone |
| `Lines.NonEmpty` | src/todo.bs.js:76-78 | the filter keeps no empty line, keeps only lines of the input, and keeps every non-empty line of the input |
| `Lines.NonEmptyAppend` | src/todo.bs.js:76-78 | filtering distributes over concatenation, so the order of the kept lines is the input order |
| `Lines.NonEmptyKeeps` | src/todo.bs.js:76-78 | a list without empty lines passes the filter unchanged |
| `Lines.ReadLines` | src/todo.bs.js:72-79 | every line read from a file is non-empty and holds no line break |
| `Lines.ReadJoin` | src/todo.bs.js:84 | a file rewritten with the join of well-formed lines reads back as exactly those lines |
| `Lines.JoinNoTrailingBreak` | src/todo.bs.js:84 | the rewrite of a non-empty list of lines does not end in a line break |
| `Lines.ReadOneLine` | src/todo.bs.js:72-79 | a single non-empty line reads back as itself |
| `Lines.ReadAfterAppend` | src/todo.bs.js:64-70 | appending `text + "\n"` to content that is empty or ends at a line break adds the lines of `text` after the old lines |
| `Lines.ReadAfterAppendGlued` | src/todo.bs.js:64-70 | appending a one-line `text + "\n"` to content that does not end at a line break adds no line; the old last line becomes `last + text` |
| `Lines.AppendAfterRewriteGlues` | src/todo.bs.js:81-89 | after a delete's rewrite leaves lines `ls`, an append of a one-line `text` makes the last line `ls[last] + text` instead of adding a line |
| `Listing.Decimal` | src/todo.bs.js:120 | `String(i + 1)` is a non-empty string of decimal digits with a leading zero only for 0 |
| `Listing.DecimalValue` | src/todo.bs.js:120 | reading the digits of the rendered number gives the number back |
| `Listing.Entry` | src/todo.bs.js:120 | an entry `"[" + n + "] " + todo` is non-empty and is one line when the todo is |
| `Listing.NewestFirst` | src/todo.bs.js:119-121 | the reference listing has one non-empty entry per pending todo |
| `Listing.ReduceWithIndex` | src/todo.bs.js:119-120 | each step puts the new entry in front, so the accumulated text stays at the end and the entry of the newest todo, under number `k`, comes first |
| `Listing.ReduceIsStack` | src/todo.bs.js:119-121 | the `reduceWithIndex` fold equals the reference rendering (newest entry, then the rendering of the older ones) |
| `Listing.NewestFirstCons` | src/todo.bs.js:119-121 | the listing is the newest entry, under number `k`, followed by the listing of the first `k - 1` todos |
| `Listing.SplitStack` | src/todo.bs.js:119-121 | the reference rendering splits into the listing lines, each ended by a line break |
| `Listing.Render` | src/todo.bs.js:119-121 | for one-line todos, the text the fold builds before `trim()` is `"[k] tk\n" + … + "[1] t1\n"`: it splits into the entries newest first, each todo under its own 1-based position, each ended by a line break |
| `Todo.DoneEntry` | src/todo.bs.js:147 | the done line starts with `x `, ends with the todo's text, and is one line when the date and the todo are |
| `Todo.DoneEntryIsLine` | src/todo.bs.js:147 | the done entry reads back as exactly itself when the date and the todo are one line |
| `Todo.TodoDb.constructor` | src/todo.bs.js:50-62 | a missing file starts empty (no lines, ready for appends); an existing one keeps its content |
| `Todo.TodoDb.ReadLinesFile` | src/todo.bs.js:72-79 | the lines of either file are non-empty and hold no line break |
| `Todo.TodoDb.Pending` | src/todo.bs.js:101-103 | the pending todos are well-formed lines |
| `Todo.TodoDb.Completed` | src/todo.bs.js:105-107 | the done entries are well-formed lines |
| `Todo.TodoDb.WriteFile` | src/todo.bs.js:84-87 | writing replaces the target file's content and leaves the other file unchanged |
| `Todo.TodoDb.AppendToFile` | src/todo.bs.js:64-70 | the target becomes `old + text + "\n"` and the other file is unchanged; at line level, the lines of `text` follow the old lines when the old content ended at a break, and a one-line `text` is glued onto the last line otherwise |
| `Todo.TodoDb.DeleteLineFile` | src/todo.bs.js:81-89 | for `1 <= n <= lines`: returns line `n`; the content becomes the `"\n"`-join of the other lines, with no trailing break when any remain; reading gives the old list minus that line, one shorter, the others unchanged and in order; the other file is unchanged |
| `Todo.TodoDb.IsValidTodo` | src/todo.bs.js:109-115 | holds exactly when `1 <= n <= |pending|`, and then `ls` shows pending line `n` under the number `n` |
| `Todo.TodoDb.AddTodo` | src/todo.bs.js:91-99 | without an argument, nothing changes and a missing-todo error results; with one, the pending file gets `text + "\n"` and the done file is unchanged; when the file ended at a break, a one-line non-empty text becomes the new last pending todo |
| `Todo.TodoDb.DeleteTodo` | src/todo.bs.js:129-141 | a missing or invalid number changes neither file and is reported as such; a valid number removes exactly that pending todo, as `DeleteLineFile` does, and leaves the done file unchanged |
| `Todo.TodoDb.DoneTodo` | src/todo.bs.js:143-156 | a missing or invalid number changes neither file; a valid `n` removes pending todo `n` and appends `"x " + today + " " + removed + "\n"` to the done file, which then has exactly one more entry when it ended at a break |
| `Todo.TodoDb.ListTodos` | src/todo.bs.js:117-127 | the printed lines are the pending todos newest first, each under its 1-based position; the no-pending notice is shown exactly when nothing is pending |
| `Todo.TodoDb.TodoReport` | src/todo.bs.js:158-161 | the pending count is the number of entries `ls` shows and is zero exactly when `ls` shows the notice; the completed count is the number of done entries; the date is the given day |
| `Todo.TwoAdds` | src/todo.bs.js:91-99 | from two missing files, `add "Buy milk"` then `add "Pay bills"` leaves those two todos pending, in that order |
| `Todo.TwoEntriesListed` | src/todo.bs.js:119-120 | the listing of those two todos is `"[2] Pay bills"` then `"[1] Buy milk"` |
| `Todo.ListAfterTwoAdds` | src/todo.bs.js:117-127 | after those two adds, `ls` prints `[2] Pay bills` then `[1] Buy milk` and no notice |
| `Todo.GluedLine` | src/todo.bs.js:64-70 | the one-line rewrite `"Pay bills"` followed by an append of `"Call mum"` reads as the single line `"Pay billsCall mum"` |
| `Todo.AddAfterDeleteGlues` | src/todo.bs.js:81-99 | after the two adds, `del 1` and then `add "Call mum"` leave the single pending line `"Pay billsCall mum"` |

## Left out

- The file system calls (`existsSync`, `writeFileSync`, `appendFileSync`, `readFileSync`) and the UTF-8 encoding. The model holds each file's content as a string field. A failing read or write, which the program does not handle, is not modelled.
- `getToday` (src/todo.bs.js:12-17) depends on the clock and the time zone. `DoneTodo` and `TodoReport` take the date as a `today` parameter.
- The command dispatcher (src/todo.bs.js:163-192) is not modelled. This covers reading `process.argv`, parsing the number with `Belt_Int.fromString`, and the `help`, usage and "Invalid Command!" paths. The commands take the already parsed argument as an `Option`.
- Console output is not modelled. Each command returns an `Outcome` value for the message it prints. The message texts (`notEnoughArgsMsgs`, `showUsageMessage`) and their wording are not modelled.
- Todo.TodoDb.ListTodos: returns the fold's text before `trim()` (src/todo.bs.js:121). The printed text loses all the whitespace at its end. That is the final `"\n"` and the oldest todo's trailing whitespace. When that todo is only whitespace, it is also the space after its `]`: `"[1]  \n"` prints as `"[1]"`.
- Todo.TodoDb.DeleteLineFile: requires `1 <= n <= |lines|`, the range both callers check first. The 32-bit truncation `| 0` and the out-of-bounds exception of `Caml_array.get` are therefore not modelled (src/todo.bs.js:83).
- Todo.TodoDb.AppendToFile: the resulting line list is stated only in two cases: the old content ends at a line break, or the appended text is one line. In every case the contract states the new content itself.
- Todo.TodoDb.AddTodo: the new pending list is stated only when the old content ends at a line break. When it does not, `AppendToFile`'s glued-line statement applies.
- Todo.TodoDb.DoneTodo: the done list is stated to grow by exactly one entry only when the done file ended at a line break and the date holds none. The program keeps the first condition itself when it starts without a done file. The new content of the done file is stated in every case.
- Two invocations running at once can race on the files. The program does nothing to prevent this, and the model describes one invocation at a time.
