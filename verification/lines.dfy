/** Line-oriented view of a text file's content: splitting on the line
    break, joining with it, and dropping the empty pieces. These are the
    string operations that the todo store performs between reading and
    rewriting its files. */
module Lines {

  const NL: char := '\n'

  /** A piece of text that holds no line break. */
  predicate OneLine(s: string)
  {
    NL !in s
  }

  /** Content that is empty or whose last character is a line break, so that
      text appended to it starts a line of its own. */
  predicate EndsAtLineBreak(s: string)
  {
    s == [] || s[|s| - 1] == NL
  }

  /** `s.split("\n")`: the pieces between line breaks, in order; an empty
      string gives one empty piece and a trailing break gives a final empty
      piece. */
  function Split(s: string): (r: seq<string>)
    ensures |r| >= 1
    ensures forall piece <- r :: OneLine(piece)
  {
    if s == [] then [""]
    else if s[0] == NL then [""] + Split(s[1..])
    else
      var t := Split(s[1..]);
      assert t[0] in t && forall piece <- t[1..] :: piece in t;
      [[s[0]] + t[0]] + t[1..]
  }

  /** `parts.join("\n")`: the parts separated by single line breaks, with
      no break after the last one. */
  function Join(parts: seq<string>): (r: string)
    ensures |parts| >= 1 ==> parts[0] <= r
    ensures |parts| >= 2 ==> NL in r
  {
    if |parts| == 0 then ""
    else if |parts| == 1 then parts[0]
    else parts[0] + [NL] + Join(parts[1..])
  }

  /** Prefixing a character to the first part prefixes it to the join. */
  lemma JoinCons(c: char, t: seq<string>, u: seq<string>)
    requires |t| >= 1 && |u| == |t|
    requires u[0] == [c] + t[0] && u[1..] == t[1..]
    ensures Join(u) == [c] + Join(t)
  {
  }

  /** Joining the pieces of a split gives the text back. */
  lemma {:induction false} JoinSplit(s: string)
    ensures Join(Split(s)) == s
  {
    if s != [] {
      var t := Split(s[1..]);
      JoinSplit(s[1..]);
      if s[0] == NL {
        assert ([""] + t)[1..] == t;
        assert [NL] + s[1..] == s;
      } else {
        var u := [[s[0]] + t[0]] + t[1..];
        assert u[1..] == t[1..];
        JoinCons(s[0], t, u);
        assert [s[0]] + s[1..] == s;
      }
    }
  }

  /** The `filter(todo => todo !== "")` step: the non-empty parts, in their
      original order. */
  function NonEmpty(parts: seq<string>): (r: seq<string>)
    ensures |r| <= |parts|
    ensures forall x <- r :: x != "" && x in parts
    ensures forall x <- parts :: x != "" ==> x in r
  {
    if parts == [] then []
    else (if parts[0] == "" then [] else [parts[0]]) + NonEmpty(parts[1..])
  }

  /** What `readLinesFile` returns for a file holding `s`. */
  function ReadLines(s: string): (r: seq<string>)
    ensures forall line <- r :: line != "" && OneLine(line)
  {
    NonEmpty(Split(s))
  }

  /** A list of pieces none of which is empty. */
  predicate NoBlank(ls: seq<string>)
  {
    forall l <- ls :: l != ""
  }

  /** Lines that a file can hold one per line and read back unchanged. */
  predicate WellFormedLines(ls: seq<string>)
  {
    forall l <- ls :: l != "" && OneLine(l)
  }

  /** Filtering distributes over concatenation. */
  lemma {:induction false} NonEmptyAppend(a: seq<string>, b: seq<string>)
    ensures NonEmpty(a + b) == NonEmpty(a) + NonEmpty(b)
  {
    if a == [] {
      assert a + b == b;
    } else {
      assert (a + b)[1..] == a[1..] + b;
      NonEmptyAppend(a[1..], b);
    }
  }

  /** Filtering keeps a list with no empty part as it is. */
  lemma {:induction false} NonEmptyKeeps(ls: seq<string>)
    requires NoBlank(ls)
    ensures NonEmpty(ls) == ls
  {
    if ls != [] {
      assert ls[0] in ls;
      assert forall l <- ls[1..] :: l in ls;
      NonEmptyKeeps(ls[1..]);
    }
  }

  /** Gluing the pieces of two texts: the last piece of the first and the
      first piece of the second become one piece. */
  function Glue(x: seq<string>, y: seq<string>): (r: seq<string>)
    requires |x| >= 1 && |y| >= 1
    ensures |r| == |x| + |y| - 1
  {
    x[..|x| - 1] + [x[|x| - 1] + y[0]] + y[1..]
  }

  /** A character in front of the first piece stays in front after gluing. */
  lemma GlueCons(c: char, x: seq<string>, y: seq<string>, u: seq<string>)
    requires |x| >= 1 && |y| >= 1
    requires |u| == |x| && u[0] == [c] + x[0] && u[1..] == x[1..]
    ensures Glue(u, y) == [[c] + Glue(x, y)[0]] + Glue(x, y)[1..]
  {
    var k := |x| - 1;
    var t := Glue(x, y);
    if k == 0 {
      assert t == [x[0] + y[0]] + y[1..];
      assert Glue(u, y) == [u[0] + y[0]] + y[1..];
      assert [c] + (x[0] + y[0]) == ([c] + x[0]) + y[0];
    } else {
      assert u[k] == x[k];
      assert u[..k] == [u[0]] + u[1..k];
      assert u[1..k] == x[1..k];
      assert t[0] == x[0];
      assert t[1..] == x[1..k] + [x[k] + y[0]] + y[1..];
    }
  }

  /** An empty first piece stays first after gluing. */
  lemma GlueBlank(x: seq<string>, y: seq<string>)
    requires |x| >= 1 && |y| >= 1
    ensures Glue([""] + x, y) == [""] + Glue(x, y)
  {
  }

  /** Splitting a concatenation glues the two splits together. */
  lemma {:induction false} SplitConcat(a: string, b: string)
    ensures Split(a + b) == Glue(Split(a), Split(b))
  {
    if a == [] {
      var y := Split(b);
      assert a + b == b;
      assert [y[0]] + y[1..] == y;
      assert "" + y[0] == y[0];
    } else {
      var x := Split(a[1..]);
      assert (a + b)[0] == a[0];
      assert (a + b)[1..] == a[1..] + b;
      SplitConcat(a[1..], b);
      if a[0] == NL {
        GlueBlank(x, Split(b));
      } else {
        var u := [[a[0]] + x[0]] + x[1..];
        assert u[1..] == x[1..];
        assert Split(a) == u;
        GlueCons(a[0], x, Split(b), u);
      }
    }
  }

  /** A text without line breaks is a single piece. */
  lemma {:induction false} SplitOneLine(p: string)
    requires OneLine(p)
    ensures Split(p) == [p]
  {
    if p != [] {
      assert p[0] != NL;
      SplitOneLine(p[1..]);
      assert [p[0]] + p[1..] == p;
    }
  }

  /** A lone line break splits into two empty pieces. */
  lemma SplitBreak()
    ensures Split([NL]) == ["", ""]
  {
  }

  /** Gluing on the pieces of a lone line break adds an empty piece. */
  lemma GlueBreak(x: seq<string>)
    requires |x| >= 1
    ensures Glue(x, ["", ""]) == x + [""]
  {
    assert x[|x| - 1] + "" == x[|x| - 1];
    assert x[..|x| - 1] + [x[|x| - 1]] == x;
    assert ["", ""][1..] == [""];
  }

  /** Gluing after a final empty piece just concatenates. */
  lemma GlueAfterBlank(x: seq<string>, y: seq<string>)
    requires |y| >= 1
    ensures Glue(x + [""], y) == x + y
  {
    assert (x + [""])[..|x|] == x;
    assert "" + y[0] == y[0];
    assert [y[0]] + y[1..] == y;
  }

  /** A trailing line break leaves a final empty piece. */
  lemma SplitTrailingBreak(s: string)
    ensures Split(s + [NL]) == Split(s) + [""]
  {
    SplitConcat(s, [NL]);
    SplitBreak();
    GlueBreak(Split(s));
  }

  /** A line break between two texts separates their splits exactly. */
  lemma SplitAtLineBreak(a: string, b: string)
    ensures Split(a + [NL] + b) == Split(a) + Split(b)
  {
    SplitConcat(a + [NL], b);
    SplitTrailingBreak(a);
    GlueAfterBlank(Split(a), Split(b));
  }

  /** Joining well-formed pieces and splitting again gives the pieces back. */
  lemma {:induction false} SplitJoin(parts: seq<string>)
    requires |parts| >= 1
    requires forall p <- parts :: OneLine(p)
    ensures Split(Join(parts)) == parts
  {
    if |parts| == 1 {
      SplitOneLine(parts[0]);
    } else {
      SplitAtLineBreak(parts[0], Join(parts[1..]));
      SplitOneLine(parts[0]);
      SplitJoin(parts[1..]);
    }
  }

  /** Rewriting a file with the join of well-formed lines and reading it
      back gives those lines. */
  lemma ReadJoin(ls: seq<string>)
    requires WellFormedLines(ls)
    ensures ReadLines(Join(ls)) == ls
  {
    if ls == [] {
      assert Split("") == [""];
    } else {
      SplitJoin(ls);
      NonEmptyKeeps(ls);
    }
  }

  /** The join of non-empty lines ends in the last line's last character,
      never in a line break. */
  lemma {:induction false} JoinNoTrailingBreak(ls: seq<string>)
    requires ls != [] && WellFormedLines(ls)
    ensures !EndsAtLineBreak(Join(ls))
  {
    var last := ls[|ls| - 1];
    assert last in ls;
    assert last[|last| - 1] in last;
    if |ls| > 1 {
      assert ls[1..][|ls| - 2] == last;
      assert forall l <- ls[1..] :: l in ls;
      JoinNoTrailingBreak(ls[1..]);
    }
  }

  /** Reading skips a trailing empty piece. */
  lemma NonEmptyDropBlank(a: seq<string>)
    ensures NonEmpty(a + [""]) == NonEmpty(a)
  {
    NonEmptyAppend(a, [""]);
  }

  /** The lines of `text + "\n"` are those of `text`. */
  lemma ReadWithBreak(text: string)
    ensures ReadLines(text + [NL]) == ReadLines(text)
  {
    SplitTrailingBreak(text);
    NonEmptyDropBlank(Split(text));
  }

  /** A single non-empty line reads back as itself. */
  lemma ReadOneLine(text: string)
    requires text != "" && OneLine(text)
    ensures ReadLines(text) == [text]
  {
    SplitOneLine(text);
    assert [text][1..] == [];
  }

  /** Appending `text + "\n"` to content that ends at a line break adds the
      lines of `text` after the existing lines. */
  lemma ReadAfterAppend(content: string, text: string)
    requires EndsAtLineBreak(content)
    ensures ReadLines(content + text + [NL]) == ReadLines(content) + ReadLines(text)
  {
    if content == [] {
      assert content + text + [NL] == text + [NL];
      ReadWithBreak(text);
    } else {
      var front := content[..|content| - 1];
      assert content == front + [NL];
      assert content + text + [NL] == front + [NL] + (text + [NL]);
      SplitAtLineBreak(front, text + [NL]);
      NonEmptyAppend(Split(front), Split(text + [NL]));
      ReadWithBreak(front);
      ReadWithBreak(text);
    }
  }

  /** Gluing one piece onto a list extends its last element. */
  lemma GlueOne(xs: seq<string>, text: string)
    requires xs != []
    ensures Glue(xs, [text]) == xs[..|xs| - 1] + [xs[|xs| - 1] + text]
  {
  }

  /** Content that does not end at a line break ends in a non-empty piece. */
  lemma SplitLastNonEmpty(content: string)
    requires !EndsAtLineBreak(content)
    ensures Split(content)[|Split(content)| - 1] != ""
  {
  }

  /** Filtering keeps a non-empty last piece. */
  lemma NonEmptySnoc(xs: seq<string>, x: string)
    requires x != ""
    ensures NonEmpty(xs + [x]) == NonEmpty(xs) + [x]
  {
    NonEmptyAppend(xs, [x]);
    assert [x][1..] == [];
  }

  /** Appending `text + "\n"` to content that does not end at a line break
      adds no line: the text is glued onto the last line. */
  lemma ReadAfterAppendGlued(content: string, text: string)
    requires !EndsAtLineBreak(content)
    requires OneLine(text)
    ensures ReadLines(content) != []
    ensures var ls := ReadLines(content);
      ReadLines(content + text + [NL]) == ls[..|ls| - 1] + [ls[|ls| - 1] + text]
  {
    var xs := Split(content);
    var front, last := xs[..|xs| - 1], xs[|xs| - 1];
    assert xs == front + [last];
    SplitLastNonEmpty(content);
    NonEmptySnoc(front, last);
    assert Split(content + text + [NL]) == front + [last + text] + [""] by {
      SplitTrailingBreak(content + text);
      SplitConcat(content, text);
      SplitOneLine(text);
      GlueOne(xs, text);
    }
    NonEmptyDropBlank(front + [last + text]);
    NonEmptySnoc(front, last + text);
  }

  /** Appending a line to content that a delete rewrote (well-formed lines
      joined, no trailing break) does not add a line: it extends the last
      one. */
  lemma AppendAfterRewriteGlues(ls: seq<string>, text: string)
    requires ls != [] && WellFormedLines(ls)
    requires OneLine(text)
    ensures ReadLines(Join(ls) + text + [NL]) == ls[..|ls| - 1] + [ls[|ls| - 1] + text]
  {
    ReadJoin(ls);
    JoinNoTrailingBreak(ls);
    ReadAfterAppendGlued(Join(ls), text);
  }
}
