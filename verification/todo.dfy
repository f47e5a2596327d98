/** The todo store: the pending list `todo.txt` and the completed list
    `done.txt`, held as the two files' contents, and the commands that read
    and rewrite them. */
module Todo {
  import opened Lines
  import opened Listing

  /** An argument that the command line may or may not supply. */
  datatype Option<T> = None | Some(value: T)

  /** The two files the program keeps in its working directory. */
  datatype File = TodoFile | DoneFile
  {
    function Other(): (o: File)
      ensures o != this
    {
      if this == TodoFile then DoneFile else TodoFile
    }
  }

  /** What a command reports on the console. */
  datatype Outcome =
    | Added(todo: string)
    | MissingTodoString
    | MissingNumber
    | Deleted(number: int)
    | NoSuchTodo(number: int)
    | MarkedDone(number: int)

  /** What `ls` prints: the rendered entries, and whether the
      "There are no pending todos!" notice follows them. */
  datatype Shown = Shown(text: string, noPendingNotice: bool)

  /** What `report` prints: the date and the two counts. */
  datatype Report = Report(date: string, pending: nat, completed: nat)

  /** The line recorded in the done file for a completed todo: it starts
      with the `x ` mark, ends with the todo's text, and is one line when the
      date and the todo are. */
  function DoneEntry(today: string, todo: string): (e: string)
    ensures "x " <= e && |todo| < |e| && e[|e| - |todo|..] == todo
    ensures OneLine(today) && OneLine(todo) ==> OneLine(e)
  {
    "x " + today + " " + todo
  }

  /** The done entry of a todo read from the pending file reads back as
      that one entry, provided the date is a single line. */
  lemma DoneEntryIsLine(today: string, todo: string)
    requires OneLine(today) && OneLine(todo)
    ensures ReadLines(DoneEntry(today, todo)) == [DoneEntry(today, todo)]
  {
    ReadOneLine(DoneEntry(today, todo));
  }

  class TodoDb {
    /** Content of `todo.txt`. */
    var todo: string
    /** Content of `done.txt`. */
    var done: string

    /** Program start: a file that does not exist yet is created empty; one
        that exists keeps its content. */
    constructor (todoOnDisk: Option<string>, doneOnDisk: Option<string>)
      ensures todo == (if todoOnDisk.Some? then todoOnDisk.value else "")
      ensures done == (if doneOnDisk.Some? then doneOnDisk.value else "")
      ensures todoOnDisk.None? ==> Pending() == [] && EndsAtLineBreak(todo)
      ensures doneOnDisk.None? ==> Completed() == [] && EndsAtLineBreak(done)
    {
      todo := if todoOnDisk.Some? then todoOnDisk.value else "";
      done := if doneOnDisk.Some? then doneOnDisk.value else "";
      assert Split("") == [""];
    }

    /** The content of one of the two files. */
    function Content(f: File): string
      reads this
    {
      if f == TodoFile then todo else done
    }

    /** `readLinesFile(f)`: the file's non-empty lines, in order. */
    function ReadLinesFile(f: File): (ls: seq<string>)
      reads this
      ensures WellFormedLines(ls)
    {
      ReadLines(Content(f))
    }

    /** `getTodos`: the pending todos. */
    function Pending(): (ls: seq<string>)
      reads this
      ensures WellFormedLines(ls)
    {
      ReadLinesFile(TodoFile)
    }

    /** `getDone`: the completed entries. */
    function Completed(): (ls: seq<string>)
      reads this
      ensures WellFormedLines(ls)
    {
      ReadLinesFile(DoneFile)
    }

    /** `writeFileSync(f, content)`: replaces the file's content. */
    method WriteFile(f: File, content: string)
      modifies this
      ensures Content(f) == content
      ensures Content(f.Other()) == old(Content(f.Other()))
    {
      if f == TodoFile {
        todo := content;
      } else {
        done := content;
      }
    }

    /** `appendToFile(f, text)`: adds `text` and a line break at the end of
        the file. If the file ended at a line break (or was empty) the lines
        of `text` follow the old lines; otherwise a one-line `text` is glued
        onto the old last line. */
    method AppendToFile(f: File, text: string)
      modifies this
      ensures Content(f) == old(Content(f)) + text + [NL]
      ensures Content(f.Other()) == old(Content(f.Other()))
      ensures EndsAtLineBreak(Content(f))
      ensures EndsAtLineBreak(old(Content(f))) ==>
                ReadLinesFile(f) == old(ReadLinesFile(f)) + ReadLines(text)
      ensures !EndsAtLineBreak(old(Content(f))) && OneLine(text) ==>
                var was := old(ReadLinesFile(f));
                was != [] && ReadLinesFile(f) == was[..|was| - 1] + [was[|was| - 1] + text]
    {
      var before := Content(f);
      WriteFile(f, before + text + [NL]);
      if EndsAtLineBreak(before) {
        ReadAfterAppend(before, text);
      } else if OneLine(text) {
        ReadAfterAppendGlued(before, text);
      }
    }

    /** `deleteLineFile(f, n)`: removes line `n` (1-based) of the file's
        lines, rewrites the file with the remaining lines joined by line
        breaks (so with no break at the end) and returns the removed line.
        The callers check `n` first. */
    method DeleteLineFile(f: File, n: int) returns (line: string)
      requires 1 <= n <= |ReadLinesFile(f)|
      modifies this
      ensures var was := old(ReadLinesFile(f));
        && line == was[n - 1]
        && Content(f) == Join(was[..n - 1] + was[n..])
        && ReadLinesFile(f) == was[..n - 1] + was[n..]
      ensures Content(f.Other()) == old(Content(f.Other()))
      ensures |ReadLinesFile(f)| == |old(ReadLinesFile(f))| - 1
      ensures forall i :: 0 <= i < n - 1 ==> ReadLinesFile(f)[i] == old(ReadLinesFile(f))[i]
      ensures forall i :: n - 1 <= i < |ReadLinesFile(f)| ==>
                ReadLinesFile(f)[i] == old(ReadLinesFile(f))[i + 1]
      ensures ReadLinesFile(f) != [] ==> !EndsAtLineBreak(Content(f))
    {
      var lines := ReadLinesFile(f);
      line := lines[n - 1];
      var rest := lines[..n - 1] + lines[n..];
      assert WellFormedLines(rest) by {
        forall l | l in rest ensures l != "" && OneLine(l) {
          assert l in lines;
        }
      }
      ReadJoin(rest);
      if rest != [] {
        JoinNoTrailingBreak(rest);
      }
      WriteFile(f, Join(rest));
    }

    /** `isValidTodo(n)`: `n` numbers one of the pending todos, which the
        listing shows under that number. */
    function IsValidTodo(n: int): (valid: bool)
      reads this
      ensures valid <==> 1 <= n <= |Pending()|
      ensures valid ==> NewestFirst(Pending())[|Pending()| - n] == Entry(n, Pending()[n - 1])
    {
      if n >= 1 then n <= |Pending()| else false
    }

    /** `addTodo(arg)`: appends the text to the pending file; without an
        argument nothing changes. */
    method AddTodo(arg: Option<string>) returns (outcome: Outcome)
      modifies this
      ensures arg.None? ==> outcome == MissingTodoString && todo == old(todo) && done == old(done)
      ensures arg.Some? ==> outcome == Added(arg.value) && todo == old(todo) + arg.value + [NL] && done == old(done)
      ensures arg.Some? ==> EndsAtLineBreak(todo)
      ensures arg.Some? && EndsAtLineBreak(old(todo)) ==>
                Pending() == old(Pending()) + ReadLines(arg.value)
      ensures arg.Some? && EndsAtLineBreak(old(todo)) && arg.value != "" && OneLine(arg.value) ==>
                Pending() == old(Pending()) + [arg.value]
    {
      if arg.Some? {
        AppendToFile(TodoFile, arg.value);
        if EndsAtLineBreak(old(todo)) && arg.value != "" && OneLine(arg.value) {
          ReadOneLine(arg.value);
        }
        outcome := Added(arg.value);
      } else {
        outcome := MissingTodoString;
      }
    }

    /** `deleteTodo(arg)`: removes pending todo number `arg`; without an
        argument, or with a number that is not valid, nothing changes. */
    method DeleteTodo(arg: Option<int>) returns (outcome: Outcome)
      modifies this
      ensures arg.None? ==> outcome == MissingNumber && todo == old(todo) && done == old(done)
      ensures arg.Some? && !old(IsValidTodo(arg.value)) ==>
                outcome == NoSuchTodo(arg.value) && todo == old(todo) && done == old(done)
      ensures arg.Some? && old(IsValidTodo(arg.value)) ==>
                var n, was := arg.value, old(Pending());
                && outcome == Deleted(n)
                && todo == Join(was[..n - 1] + was[n..])
                && Pending() == was[..n - 1] + was[n..]
                && done == old(done)
    {
      if arg.Some? {
        if IsValidTodo(arg.value) {
          var _ := DeleteLineFile(TodoFile, arg.value);
          outcome := Deleted(arg.value);
        } else {
          outcome := NoSuchTodo(arg.value);
        }
      } else {
        outcome := MissingNumber;
      }
    }

    /** `doneTodo(arg, today)`: removes pending todo number `arg` and records
        it, dated, at the end of the done file; without an argument, or with
        a number that is not valid, nothing changes. */
    method DoneTodo(arg: Option<int>, today: string) returns (outcome: Outcome)
      modifies this
      ensures arg.None? ==> outcome == MissingNumber && todo == old(todo) && done == old(done)
      ensures arg.Some? && !old(IsValidTodo(arg.value)) ==>
                outcome == NoSuchTodo(arg.value) && todo == old(todo) && done == old(done)
      ensures arg.Some? && old(IsValidTodo(arg.value)) ==>
                var n, was := arg.value, old(Pending());
                && outcome == MarkedDone(n)
                && todo == Join(was[..n - 1] + was[n..])
                && Pending() == was[..n - 1] + was[n..]
                && done == old(done) + DoneEntry(today, was[n - 1]) + [NL]
      ensures arg.Some? && old(IsValidTodo(arg.value)) && EndsAtLineBreak(old(done)) && OneLine(today) ==>
                Completed() == old(Completed()) + [DoneEntry(today, old(Pending())[arg.value - 1])]
      ensures EndsAtLineBreak(old(done)) ==> EndsAtLineBreak(done)
    {
      if arg.Some? {
        var n := arg.value;
        if IsValidTodo(n) {
          ghost var was := Pending();
          var removed := DeleteLineFile(TodoFile, n);
          assert removed in was;
          AppendToFile(DoneFile, DoneEntry(today, removed));
          if EndsAtLineBreak(old(done)) && OneLine(today) {
            DoneEntryIsLine(today, removed);
          }
          outcome := MarkedDone(n);
        } else {
          outcome := NoSuchTodo(arg.value);
        }
      } else {
        outcome := MissingNumber;
      }
    }

    /** `listTodos`: the pending todos newest first, each under its 1-based
        number in the file, one per line; the notice follows exactly when
        nothing is pending. */
    function ListTodos(): (shown: Shown)
      reads this
      ensures shown.noPendingNotice <==> Pending() == []
      ensures Split(shown.text) == NewestFirst(Pending()) + [""]
      ensures ReadLines(shown.text) == NewestFirst(Pending())
    {
      var pending := Pending();
      assert forall t <- pending :: OneLine(t);
      var lines := NewestFirst(pending);
      NonEmptyDropBlank(lines);
      NonEmptyKeeps(lines);
      Shown(Render(pending), |pending| == 0)
    }

    /** `todoReport(today)`: the date with the number of pending and of
        completed entries; the pending count is the number of entries that
        `ls` shows. */
    function TodoReport(today: string): (r: Report)
      reads this
      ensures r.date == today
      ensures r.pending == |ReadLines(ListTodos().text)|
      ensures r.pending == 0 <==> ListTodos().noPendingNotice
      ensures r.completed == |Completed()|
    {
      Report(today, |Pending()|, |Completed()|)
    }
  }

  /** The todo texts used in the scenarios below are single lines. */
  lemma SampleTodosAreLines()
    ensures OneLine("Buy milk") && OneLine("Pay bills") && OneLine("Call mum")
  {
  }

  /** Starting from two missing files, `add "Buy milk"` and `add "Pay bills"`
      leave the two todos pending in that order. */
  method TwoAdds() returns (db: TodoDb)
    ensures fresh(db)
    ensures db.Pending() == ["Buy milk", "Pay bills"] && db.done == ""
  {
    SampleTodosAreLines();
    db := new TodoDb(None, None);
    var _ := db.AddTodo(Some("Buy milk"));
    assert db.Pending() == ["Buy milk"];
    var _ := db.AddTodo(Some("Pay bills"));
  }

  /** After the two adds, `ls` lists the newer todo first, each under its
      number in the file. */
  method ListAfterTwoAdds() returns (shown: Shown)
    ensures ReadLines(shown.text) == ["[2] Pay bills", "[1] Buy milk"]
    ensures !shown.noPendingNotice
  {
    var db := TwoAdds();
    shown := db.ListTodos();
    TwoEntriesListed();
  }

  /** The listing of two pending todos, spelled out. */
  lemma TwoEntriesListed()
    ensures NewestFirst(["Buy milk", "Pay bills"]) == ["[2] Pay bills", "[1] Buy milk"]
  {
    assert Entry(2, "Pay bills") == "[2] Pay bills" by {
      assert Decimal(2) == "2";
    }
    assert Entry(1, "Buy milk") == "[1] Buy milk" by {
      assert Decimal(1) == "1";
    }
  }

  /** After the two adds, `del 1` leaves the file as `"Pay bills"` without a
      final line break, so `add "Call mum"` extends that line instead of
      adding one. */
  method AddAfterDeleteGlues() returns (pending: seq<string>)
    ensures pending == ["Pay billsCall mum"]
  {
    var db := TwoAdds();
    var _ := db.DeleteTodo(Some(1));
    assert db.todo == Join(["Pay bills"]);
    var _ := db.AddTodo(Some("Call mum"));
    GluedLine();
    pending := db.Pending();
  }

  /** The rewritten one-line file `"Pay bills"` after appending `"Call mum"`. */
  lemma GluedLine()
    ensures ReadLines(Join(["Pay bills"]) + "Call mum" + [NL]) == ["Pay billsCall mum"]
  {
    SampleTodosAreLines();
    AppendAfterRewriteGlues(["Pay bills"], "Call mum");
    assert "Pay bills" + "Call mum" == "Pay billsCall mum";
  }
}
