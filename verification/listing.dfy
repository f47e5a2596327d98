/** Rendering of the pending list as `listTodos` prints it: a fold over the
    lines that puts each new entry in front of the text built so far, so the
    newest line comes first, each labelled with its 1-based position in the
    file. */
module Listing {
  import opened Lines

  /** The character of a decimal digit. */
  function Digit(d: nat): (c: char)
    requires d < 10
    ensures '0' <= c <= '9'
    ensures c as int - '0' as int == d
  {
    ('0' as int + d) as char
  }

  /** Digits only. */
  predicate AllDigits(s: string)
  {
    forall c <- s :: '0' <= c <= '9'
  }

  /** `String(n)` for a non-negative number: its decimal digits, most
      significant first, without leading zeros. */
  function Decimal(n: nat): (s: string)
    ensures |s| >= 1 && AllDigits(s)
    ensures s[0] == '0' <==> n == 0
  {
    if n < 10 then [Digit(n)] else Decimal(n / 10) + [Digit(n % 10)]
  }

  /** The number that a string of decimal digits denotes. */
  function DigitsValue(s: string): nat
    requires AllDigits(s)
  {
    if s == [] then 0
    else
      var front, last := s[..|s| - 1], s[|s| - 1];
      assert last in s;
      assert AllDigits(front) by {
        forall c | c in front ensures '0' <= c <= '9' {
          assert c in s;
        }
      }
      DigitsValue(front) * 10 + (last as int - '0' as int)
  }

  /** Reading the digits of `Decimal(n)` gives `n` back. */
  lemma {:induction false} DecimalValue(n: nat)
    ensures DigitsValue(Decimal(n)) == n
  {
    var s := Decimal(n);
    if n >= 10 {
      DecimalValue(n / 10);
      assert s[..|s| - 1] == Decimal(n / 10);
    }
  }

  /** One entry of the listing: `"[" + String(i) + "] " + todo`. */
  function Entry(i: nat, todo: string): (e: string)
    ensures OneLine(todo) ==> OneLine(e)
    ensures e != ""
  {
    var number := Decimal(i);
    assert NL !in number;
    "[" + number + "] " + todo
  }

  /** `Belt_Array.reduceWithIndex(todos, acc, step)` from index `i` on, where
      the step puts `Entry(i + 1, todos[i]) + "\n"` in front of the
      accumulated text. */
  function ReduceWithIndex(todos: seq<string>, i: nat, acc: string): (r: string)
    requires i <= |todos|
    ensures |acc| <= |r| && r[|r| - |acc|..] == acc
    ensures i < |todos| ==> Entry(|todos|, todos[|todos| - 1]) + [NL] <= r
    decreases |todos| - i
  {
    if i == |todos| then acc
    else ReduceWithIndex(todos, i + 1, Entry(i + 1, todos[i]) + [NL] + acc)
  }

  /** The text that `listTodos` builds before trimming it: the listing lines,
      newest first, each labelled with its position in the file and ended by
      a line break. */
  function Render(todos: seq<string>): (r: string)
    ensures (forall t <- todos :: OneLine(t)) ==> Split(r) == NewestFirst(todos) + [""]
  {
    assert todos[..0] == [];
    ReduceIsStack(todos, 0);
    assert (forall t <- todos :: OneLine(t)) ==> Split(Stack(todos)) == NewestFirst(todos) + [""] by {
      if forall t <- todos :: OneLine(t) {
        SplitStack(todos);
      }
    }
    ReduceWithIndex(todos, 0, "")
  }

  /** The listing line by line: newest first, line `j` showing pending line
      `|todos| - j` under its own 1-based number. */
  function NewestFirst(todos: seq<string>): (r: seq<string>)
    ensures |r| == |todos|
    ensures NoBlank(r)
  {
    seq(|todos|, j requires 0 <= j < |todos| => Entry(|todos| - j, todos[|todos| - 1 - j]))
  }

  /** Reference definition of the rendering: the entry of the last line,
      then the rendering of the lines before it. */
  function Stack(todos: seq<string>): string
  {
    if todos == [] then ""
    else Entry(|todos|, todos[|todos| - 1]) + [NL] + Stack(todos[..|todos| - 1])
  }

  /** The fold from index `i`, started with the rendering of the first `i`
      lines, renders all of them. */
  lemma {:induction false} ReduceIsStack(todos: seq<string>, i: nat)
    requires i <= |todos|
    ensures ReduceWithIndex(todos, i, Stack(todos[..i])) == Stack(todos)
    decreases |todos| - i
  {
    if i == |todos| {
      assert todos[..i] == todos;
    } else {
      var next := todos[..i + 1];
      assert next[..i] == todos[..i];
      assert Stack(next) == Entry(i + 1, todos[i]) + [NL] + Stack(todos[..i]);
      ReduceIsStack(todos, i + 1);
    }
  }

  /** Putting the newest entry in front of the listing of the older lines
      gives the listing of all of them. */
  lemma NewestFirstCons(todos: seq<string>)
    requires todos != []
    ensures NewestFirst(todos)
         == [Entry(|todos|, todos[|todos| - 1])] + NewestFirst(todos[..|todos| - 1])
  {
  }

  /** The rendered text splits into the listing lines, each ended by a line
      break. */
  lemma {:induction false} SplitStack(todos: seq<string>)
    requires forall t <- todos :: OneLine(t)
    ensures Split(Stack(todos)) == NewestFirst(todos) + [""]
  {
    if todos == [] {
      assert Split("") == [""];
    } else {
      var older := todos[..|todos| - 1];
      var e := Entry(|todos|, todos[|todos| - 1]);
      assert todos[|todos| - 1] in todos;
      assert forall t <- older :: t in todos;
      SplitStack(older);
      SplitAtLineBreak(e, Stack(older));
      SplitOneLine(e);
      NewestFirstCons(todos);
    }
  }
}
