/**
 * The text of the Javadoc lines that `DefaultCommentGenerator` appends, as
 * pure functions of the table name, the column name, the remarks and the
 * line separator. The hooks of the generator class are proved to append
 * exactly these lines; the lemmas here say what the lines mean: the table
 * name and the remarks can be read back out of them.
 */
module CommentText {
  import opened Wrappers
  import opened JavaStrings

  /** Text of `MergeConstants.NEW_ELEMENT_TAG`, the marker that merge tooling looks for. */
  const NewElementTag: string := "@mbg.generated"

  /** Appended after the tag when the element must survive a merge. */
  const DoNotDeleteMarker: string := " do_not_delete_during_merge"

  /** Line separators a Java platform reports; none holds a regular-expression metacharacter. */
  predicate IsLineSeparator(sep: string) {
    sep == "\n" || sep == "\r\n" || sep == "\r"
  }

  /** Opening of a table comment: the Javadoc opener followed by the qualified table name. */
  function TableHeader(table: string): string {
    "/** " + table
  }

  /** Opening of a column comment: the table header, a dot and the column name. */
  function ColumnHeader(table: string, column: string): string {
    "/** " + table + "." + column
  }

  /** The one line of the table-only hooks: the table name in a closed Javadoc comment. */
  function TableComment(table: string): (r: string)
    ensures StartsWith(r, "/** ") && EndsWith(r, " */")
    ensures |r| == |table| + 7 && r[4..|r| - 3] == table
  {
    TableHeader(table) + " */"
  }

  /** One remark piece as a body line of a multi-line comment. */
  function BodyLine(piece: string): string {
    " *  " + piece
  }

  /** The body lines for the pieces, in order. */
  function BodyLines(pieces: seq<string>): seq<string> {
    seq(|pieces|, i requires 0 <= i < |pieces| => BodyLine(pieces[i]))
  }

  /**
   * The pieces the remarks split into; `null` and the empty string have none
   * and are never split.
   */
  function RemarkPieces(remarks: Option<string>, sep: string): (r: seq<string>)
    requires |sep| > 0
    ensures |r| == 0 <==> remarks.None? || exists k: nat :: remarks.value == Repeat(sep, k)
    ensures forall p :: p in r ==> !Contains(p, sep)
  {
    if remarks.None? || remarks.value == "" then
      assert remarks.None? || remarks.value == Repeat(sep, 0);
      []
    else
      SplitEmptyIffOnlySeparators(remarks.value, sep);
      SplitPiecesFree(remarks.value, sep);
      Split(remarks.value, sep)
  }

  /**
   * The comment for a header and its remarks, chosen by the number of pieces:
   * none closes the header on its own line, one puts the whole remarks string
   * on that line, more open a block with one body line per piece.
   */
  function RemarkComment(header: string, remarks: Option<string>, sep: string): (r: seq<string>)
    requires |sep| > 0
    ensures var n := |RemarkPieces(remarks, sep)|;
      |r| == if n <= 1 then 1 else n + 2
    ensures StartsWith(r[0], header)
    ensures EndsWith(r[|r| - 1], " */")
  {
    var pieces := RemarkPieces(remarks, sep);
    if |pieces| == 0 then [header + " */"]
    else if |pieces| == 1 then [header + " " + remarks.value + " */"]
    else [header] + BodyLines(pieces) + [" */"]
  }

  /** Body lines with their ` *  ` prefix taken off. */
  function Unbody(lines: seq<string>): seq<string> {
    seq(|lines|, i requires 0 <= i < |lines| =>
      if StartsWith(lines[i], " *  ") then lines[i][4..] else lines[i])
  }

  /**
   * Reads the remarks back out of a comment with the given header: the text
   * between header and closer of a one-line comment, or the body lines of a
   * block joined with the separator.
   */
  function RecoverRemarks(header: string, lines: seq<string>, sep: string): string {
    if |lines| == 1 then
      if |lines[0]| <= |header| + 3 then "" else lines[0][|header| + 1..|lines[0]| - 3]
    else if |lines| >= 2 then Join(Unbody(lines[1..|lines| - 1]), sep)
    else ""
  }

  /** The three layouts of a remark comment, case by case. */
  lemma {:induction false} RemarkCommentLayout(header: string, remarks: Option<string>, sep: string)
    requires |sep| > 0
    ensures var pieces := RemarkPieces(remarks, sep);
      var r := RemarkComment(header, remarks, sep);
      && (|pieces| == 0 ==> r == [header + " */"])
      && (|pieces| == 1 ==> r == [header + " " + remarks.value + " */"])
      && (|pieces| >= 2 ==>
            && r[0] == header
            && (forall i :: 0 <= i < |pieces| ==> r[i + 1] == " *  " + pieces[i])
            && r[|r| - 1] == " */")
  {
    var pieces := RemarkPieces(remarks, sep);
    if |pieces| >= 2 {
      var r := RemarkComment(header, remarks, sep);
      var body := BodyLines(pieces);
      assert r == [header] + body + [" */"];
      forall i | 0 <= i < |pieces| ensures r[i + 1] == " *  " + pieces[i] {
        assert r[i + 1] == body[i];
      }
    }
  }

  /** Without remarks the comment is the header closed on the same line. */
  lemma {:induction false} NoRemarksComment(header: string, remarks: Option<string>, sep: string)
    requires |sep| > 0
    requires remarks.None? || remarks.value == ""
    ensures RemarkComment(header, remarks, sep) == [header + " */"]
  {
  }

  /** Remarks without a line separator go verbatim onto the header line. */
  lemma {:induction false} SingleLineRemarks(header: string, remarks: string, sep: string)
    requires |sep| > 0
    requires remarks != "" && !Contains(remarks, sep)
    ensures RemarkComment(header, Some(remarks), sep) == [header + " " + remarks + " */"]
  {
    SplitNoMatch(remarks, sep);
  }

  /**
   * Nothing of the remarks is lost but separators at their very end: the text
   * read back from the comment, followed by some number of separators, is the
   * remarks string.
   */
  lemma {:induction false} RemarkCommentKeepsRemarks(header: string, remarks: string, sep: string)
    requires |sep| > 0
    ensures exists k: nat ::
      remarks == RecoverRemarks(header, RemarkComment(header, Some(remarks), sep), sep) + Repeat(sep, k)
  {
    var pieces := RemarkPieces(Some(remarks), sep);
    var lines := RemarkComment(header, Some(remarks), sep);
    var back := RecoverRemarks(header, lines, sep);
    if remarks == "" {
      assert remarks == back + Repeat(sep, 0);
    } else if |pieces| == 0 {
      SplitLosesOnlyTrailingSeparators(remarks, sep);
      assert back == "" == Join(pieces, sep);
    } else if |pieces| == 1 {
      var line := header + " " + remarks + " */";
      assert lines == [line];
      assert line[|header| + 1..|line| - 3] == remarks;
      assert remarks == back + Repeat(sep, 0);
    } else {
      assert lines[1..|lines| - 1] == BodyLines(pieces);
      assert Unbody(BodyLines(pieces)) == pieces;
      assert back == Join(pieces, sep);
      SplitLosesOnlyTrailingSeparators(remarks, sep);
    }
  }

  /** Remarks that do not end with a separator are read back exactly. */
  lemma {:induction false} RemarkCommentRoundTrip(header: string, remarks: string, sep: string)
    requires |sep| > 0
    requires !EndsWith(remarks, sep)
    ensures RecoverRemarks(header, RemarkComment(header, Some(remarks), sep), sep) == remarks
  {
    RemarkCommentKeepsRemarks(header, remarks, sep);
    var back := RecoverRemarks(header, RemarkComment(header, Some(remarks), sep), sep);
    var k: nat :| remarks == back + Repeat(sep, k);
    if k > 0 {
      EndsWithRepeat(back, sep, k);
    }
  }

  /**
   * The one-line layout keeps the raw remarks, not the split piece: a remark
   * that ends in a one-character separator splits into one piece, and the
   * separator itself lands inside the single comment line.
   */
  lemma {:induction false} RawRemarksOnSingleLine(header: string, piece: string, sep: string)
    requires |sep| == 1 && piece != "" && sep[0] !in piece
    ensures RemarkPieces(Some(piece + sep), sep) == [piece]
    ensures RemarkComment(header, Some(piece + sep), sep) == [header + " " + piece + sep + " */"]
  {
    SplitAllNoMatch("", sep);
    SplitAllAtFirstSeparator(piece, "", sep);
    assert piece + sep + "" == piece + sep;
    assert DropTrailingEmpty([piece, ""]) == [piece];
    assert header + " " + (piece + sep) + " */" == header + " " + piece + sep + " */";
  }

  /** Examples for the table `s.t` and its column `c`, with `\n` as the line separator. */
  lemma ExampleNoRemarks()
    ensures RemarkComment(TableHeader("s.t"), None, "\n") == ["/** s.t */"]
    ensures RemarkComment(ColumnHeader("s.t", "c"), None, "\n") == ["/** s.t.c */"]
  {
    assert TableHeader("s.t") + " */" == "/** s.t */";
    assert ColumnHeader("s.t", "c") + " */" == "/** s.t.c */";
  }

  lemma ExampleOneLine()
    ensures RemarkComment(TableHeader("s.t"), Some("ab"), "\n") == ["/** s.t ab */"]
  {
    SingleCharContains("ab", "\n");
    SingleLineRemarks(TableHeader("s.t"), "ab", "\n");
    assert TableHeader("s.t") + " " + "ab" + " */" == "/** s.t ab */";
  }

  lemma ExampleTwoPieces()
    ensures Split("ab\ncd", "\n") == ["ab", "cd"]
    ensures RemarkComment(TableHeader("s.t"), Some("ab\ncd"), "\n") == ["/** s.t", " *  ab", " *  cd", " */"]
  {
    SingleCharContains("cd", "\n");
    SplitAllNoMatch("cd", "\n");
    SplitAllAtFirstSeparator("ab", "cd", "\n");
    assert "ab" + "\n" + "cd" == "ab\ncd";
    assert RemarkPieces(Some("ab\ncd"), "\n") == ["ab", "cd"];
    TwoPieceLayout(TableHeader("s.t"), "ab\ncd", "\n", "ab", "cd");
    assert TableHeader("s.t") == "/** s.t";
    assert " *  " + "ab" == " *  ab" && " *  " + "cd" == " *  cd";
  }

  /** A remark of two pieces gives the header, two body lines and the closer. */
  lemma TwoPieceLayout(header: string, remarks: string, sep: string, first: string, second: string)
    requires |sep| > 0 && RemarkPieces(Some(remarks), sep) == [first, second]
    ensures RemarkComment(header, Some(remarks), sep) == [header, " *  " + first, " *  " + second, " */"]
  {
    assert BodyLines([first, second]) == [" *  " + first, " *  " + second];
  }

  /** The two Javadoc lines of the generated-element tag. */
  function JavadocTagLines(markAsDoNotDelete: bool, date: Option<string>): (r: seq<string>)
    ensures |r| == 2 && r[0] == " *"
    ensures StartsWith(r[1], " * " + NewElementTag)
    ensures markAsDoNotDelete ==> StartsWith(r[1], " * " + NewElementTag + DoNotDeleteMarker)
    ensures date.None? && !markAsDoNotDelete ==> r[1] == " * " + NewElementTag
    ensures date.Some? ==> EndsWith(r[1], " " + date.value)
  {
    [ " *",
      " * " + NewElementTag
      + (if markAsDoNotDelete then DoNotDeleteMarker else "")
      + (if date.Some? then " " + date.value else "")
    ]
  }

  /** What merge tooling reads off a tag line. */
  datatype TagInfo = TagInfo(doNotDelete: bool, date: Option<string>)

  /** Reads a tag line: the marker if it follows the tag, then an optional space-led date. */
  function ParseTagLine(line: string): Option<TagInfo> {
    var lead := " * " + NewElementTag;
    if !StartsWith(line, lead) then None
    else
      var rest := line[|lead|..];
      var marked := StartsWith(rest, DoNotDeleteMarker);
      var tail := if marked then rest[|DoNotDeleteMarker|..] else rest;
      if tail == "" then Some(TagInfo(marked, None))
      else if tail[0] == ' ' then Some(TagInfo(marked, Some(tail[1..])))
      else None
  }

  /**
   * The tag line tells the mark and the date apart, unless an unmarked line
   * carries a date whose text begins like the marker.
   */
  lemma {:induction false} TagLineRoundTrip(markAsDoNotDelete: bool, date: Option<string>)
    requires markAsDoNotDelete || date.None? || !StartsWith(" " + date.value, DoNotDeleteMarker)
    ensures ParseTagLine(JavadocTagLines(markAsDoNotDelete, date)[1]) == Some(TagInfo(markAsDoNotDelete, date))
  {
    var lead := " * " + NewElementTag;
    var mark := if markAsDoNotDelete then DoNotDeleteMarker else "";
    var stamp := if date.Some? then " " + date.value else "";
    var line := lead + mark + stamp;
    assert JavadocTagLines(markAsDoNotDelete, date)[1] == line;
    assert line[..|lead|] == lead;
    var rest := line[|lead|..];
    assert rest == mark + stamp;
    if markAsDoNotDelete {
      assert rest[..|DoNotDeleteMarker|] == DoNotDeleteMarker;
      assert rest[|DoNotDeleteMarker|..] == stamp;
    } else {
      assert rest == stamp;
      if date.None? {
        assert !StartsWith(rest, DoNotDeleteMarker);
      }
    }
  }

  /**
   * The corner the round trip excludes: an unmarked tag whose date is the
   * marker's word followed by a space and some date gives the same lines as a
   * marked tag with that date, and the bare word alone gives the lines of a
   * marked tag without a date.
   */
  lemma {:induction false} DateLooksLikeMarker(date: Option<string>)
    ensures var stamp := if date.Some? then " " + date.value else "";
      JavadocTagLines(false, Some(DoNotDeleteMarker[1..] + stamp)) == JavadocTagLines(true, date)
  {
    var stamp := if date.Some? then " " + date.value else "";
    var word := DoNotDeleteMarker[1..];
    assert DoNotDeleteMarker == " " + word;
    var lead := " * " + NewElementTag;
    assert lead + "" + (" " + (word + stamp)) == lead + DoNotDeleteMarker + stamp;
  }

  /**
   * Any other date that begins with the marker's word, one not followed by a
   * space, gives an unmarked line that is no marked tag's line and that the
   * parser rejects.
   */
  lemma {:induction false} ForgedDateRejected(rest: string)
    requires rest != "" && rest[0] != ' '
    ensures var line := JavadocTagLines(false, Some(DoNotDeleteMarker[1..] + rest))[1];
      && ParseTagLine(line).None?
      && forall date :: JavadocTagLines(true, date)[1] != line
  {
    var lead := " * " + NewElementTag;
    var word := DoNotDeleteMarker[1..];
    assert DoNotDeleteMarker == " " + word;
    assert lead + "" + (" " + (word + rest)) == lead + DoNotDeleteMarker + rest;
    var line := lead + DoNotDeleteMarker + rest;
    assert JavadocTagLines(false, Some(word + rest))[1] == line;
    assert line[..|lead|] == lead;
    var tail := line[|lead|..];
    assert tail == DoNotDeleteMarker + rest;
    assert tail[..|DoNotDeleteMarker|] == DoNotDeleteMarker;
    assert tail[|DoNotDeleteMarker|..] == rest;
    forall date ensures JavadocTagLines(true, date)[1] != line {
      TagLineRoundTrip(true, date);
    }
  }
}
