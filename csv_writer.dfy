/** The comma-separated-values writer: a row is the values joined by ",",
    strings in double quotes (without doubling embedded quotes) and other
    values as their `toString`, ended by a newline; comments are written one
    prefixed line per line of the comment. The underlying `Writer` is
    modelled by the text written so far and whether it is still open. */
module Csv {
  import opened Strings

  /** The values a row is made of: Java strings, integers (int and long),
      doubles and booleans. */
  datatype Value = Text(s: string) | Int(i: int) | Real(r: real) | Bool(b: bool)

  const Quote: char := '"'
  const LineSep: char := '\n'
  const DefaultCommentPrefix: string := "# "

  /** `appendValue`: a string is quoted, anything else is its `toString`.
      `realText` is `Double.toString`, which this model does not spell out. */
  function Render(v: Value, realText: real -> string): string {
    match v
    case Text(s) => [Quote] + s + [Quote]
    case Int(i) => IntText(i)
    case Real(r) => realText(r)
    case Bool(b) => if b then "true" else "false"
  }

  function Rendered(values: seq<Value>, realText: real -> string): (r: seq<string>)
    ensures |r| == |values|
  {
    seq(|values|, i requires 0 <= i < |values| => Render(values[i], realText))
  }

  /** The text `writeValues` writes for one row. */
  function Row(values: seq<Value>, realText: real -> string): string {
    Join(Rendered(values, realText), ",") + [LineSep]
  }

  /** A row ends with the line separator, and when no value's text holds a
      comma the text before it splits at the commas back into the values'
      texts, one per value, in order. */
  lemma RowFields(values: seq<Value>, realText: real -> string)
    requires |values| > 0
    requires forall k :: 0 <= k < |values| ==> !Contains(Render(values[k], realText), ',')
    ensures var r := Row(values, realText);
      && |r| > 0 && r[|r| - 1] == LineSep
      && Pieces(r[..|r| - 1], ',') == Rendered(values, realText)
  {
    var r := Row(values, realText);
    assert r[..|r| - 1] == Join(Rendered(values, realText), ",");
    PiecesOfJoin(Rendered(values, realText), ',');
  }

  /** A string value is written between quotes with its text unchanged:
      an embedded quote is not doubled. */
  lemma TextIsQuotedVerbatim(s: string, realText: real -> string)
    ensures var r := Render(Text(s), realText);
      |r| == |s| + 2 && r[0] == Quote && r[|r| - 1] == Quote && r[1..|r| - 1] == s
  {
  }

  /** The lines `writeComment` writes for the given lines of a comment:
      each one prefixed and ended by a newline. */
  function CommentLines(prefix: string, lines: seq<string>): (r: seq<string>)
    ensures |r| == |lines|
  {
    seq(|lines|, i requires 0 <= i < |lines| => prefix + lines[i] + [LineSep])
  }

  /** A comment made of lines joined by newlines (none of them holding a
      newline, the last one not empty) is written as exactly those lines. */
  lemma CommentOfLines(prefix: string, lines: seq<string>)
    requires |lines| > 0 && lines[|lines| - 1] != ""
    requires forall k :: 0 <= k < |lines| ==> !Contains(lines[k], LineSep)
    ensures CommentLines(prefix, Split(Join(lines, [LineSep]), LineSep)) == CommentLines(prefix, lines)
  {
    var s := Join(lines, [LineSep]);
    PiecesOfJoin(lines, LineSep);
    if Contains(s, LineSep) {
      assert Split(s, LineSep) == DropTrailingEmpty(lines);
    } else {
      assert Pieces(s, LineSep) == [s];
    }
  }

  /** A one-line comment is written as the prefix, the comment and a newline. */
  lemma OneLineComment(prefix: string, comment: string)
    requires !Contains(comment, LineSep)
    ensures CommentLines(prefix, Split(comment, LineSep)) == [prefix + comment + [LineSep]]
  {
    assert Split(comment, LineSep) == [comment];
  }

  /** The text of a sequence of written chunks. */
  function Concat(ts: seq<string>): string {
    if |ts| == 0 then "" else Concat(ts[..|ts| - 1]) + ts[|ts| - 1]
  }

  /** The text of two runs of chunks is the text of the first followed by
      the text of the second. */
  lemma {:induction false} ConcatAppend(ts: seq<string>, more: seq<string>)
    ensures Concat(ts + more) == Concat(ts) + Concat(more)
    decreases |more|
  {
    if |more| == 0 {
      assert ts + more == ts;
    } else {
      var n := |more| - 1;
      assert (ts + more)[..|ts + more| - 1] == ts + more[..n];
      assert Concat(ts + more) == Concat(ts + more[..n]) + more[n];
      ConcatAppend(ts, more[..n]);
      assert Concat(more) == Concat(more[..n]) + more[n];
    }
  }

  /** `CSVWriter`. `out` is what has been written to the underlying writer,
      one chunk per row or comment line (the text is `Concat(out)`), and
      `open` says whether the writer reference is still set. */
  class CSVWriter {
    var open: bool
    var out: seq<string>
    var commentPrefix: string
    const realText: real -> string

    /** The no-argument constructor: no writer, so rows are not written. */
    constructor Detached(realText: real -> string)
      ensures !open && out == [] && commentPrefix == DefaultCommentPrefix && this.realText == realText
    {
      open := false;
      out := [];
      commentPrefix := DefaultCommentPrefix;
      this.realText := realText;
    }

    /** The constructor over a writer, which nothing has been written to yet. */
    constructor (realText: real -> string)
      ensures open && out == [] && commentPrefix == DefaultCommentPrefix && this.realText == realText
    {
      open := true;
      out := [];
      commentPrefix := DefaultCommentPrefix;
      this.realText := realText;
    }

    method SetCommentPrefix(prefix: string)
      modifies this
      ensures commentPrefix == prefix && open == old(open) && out == old(out)
    {
      commentPrefix := prefix;
    }

    /** `writeComment`: one prefixed line per newline-separated part of the
        comment. The source dereferences the writer without a check, so the
        writer must be open. */
    method WriteComment(comment: string)
      requires open
      modifies this
      ensures out == old(out) + CommentLines(commentPrefix, Split(comment, LineSep))
      ensures open && commentPrefix == old(commentPrefix)
    {
      var lines := Split(comment, LineSep);
      for i := 0 to |lines|
        invariant out == old(out) + CommentLines(commentPrefix, lines[..i])
        invariant open && commentPrefix == old(commentPrefix)
      {
        assert CommentLines(commentPrefix, lines[..i + 1]) ==
               CommentLines(commentPrefix, lines[..i]) + [commentPrefix + lines[i] + [LineSep]];
        out := out + [commentPrefix + lines[i] + [LineSep]];
      }
      assert lines[..|lines|] == lines;
    }

    /** `writeHeaders`: a row of strings, so every header is quoted. */
    method WriteHeaders(headers: seq<string>)
      modifies this
      ensures out == old(out) + if open then [Row(seq(|headers|, i requires 0 <= i < |headers| => Text(headers[i])), realText)] else []
      ensures open == old(open) && commentPrefix == old(commentPrefix)
    {
      WriteValues(seq(|headers|, i requires 0 <= i < |headers| => Text(headers[i])));
    }

    /** `writeValues`: one row when the writer is open, nothing otherwise. */
    method WriteValues(values: seq<Value>)
      modifies this
      ensures out == old(out) + if open then [Row(values, realText)] else []
      ensures open == old(open) && commentPrefix == old(commentPrefix)
    {
      if open {
        ghost var texts := Rendered(values, realText);
        var buf, sep := "", "";
        for i := 0 to |values|
          invariant buf == if i == 0 then "" else Join(texts[..i], ",")
          invariant sep == if i == 0 then "" else ","
          invariant open && out == old(out) && commentPrefix == old(commentPrefix)
        {
          var text := Render(values[i], realText);
          if i > 0 {
            JoinAppend(texts[..i], text, ",");
            assert texts[..i + 1] == texts[..i] + [text];
          } else {
            assert texts[..1] == [text];
          }
          buf := buf + sep + text;
          sep := ",";
        }
        assert texts[..|values|] == texts;
        buf := buf + [LineSep];
        out := out + [buf];
      }
    }

    /** `close`: the writer is dropped; closing again does nothing more. */
    method Close()
      modifies this
      ensures !open && out == old(out) && commentPrefix == old(commentPrefix)
    {
      open := false;
    }
  }
}
