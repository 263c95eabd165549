/**
 * `DefaultCommentGenerator`: the callback that the code generator invokes
 * at each point where a generated element may receive Javadoc. The class
 * holds its configuration in fields that `AddConfigurationProperties`
 * updates in place; every hook appends lines to the element it is given and
 * changes nothing else. The line texts are the functions of `CommentText`.
 */
module CommentGeneration {
  import opened Wrappers
  import opened JavaStrings
  import opened CommentText
  import opened GeneratorConfig

  /**
   * A generated element (class, enum, field, method, compilation unit or XML
   * element), reduced to the Javadoc lines it has collected so far.
   */
  class JavaElement {
    var javaDocLines: seq<string>

    constructor ()
      ensures javaDocLines == []
    {
      javaDocLines := [];
    }

    method AddJavaDocLine(line: string)
      modifies this
      ensures javaDocLines == old(javaDocLines) + [line]
    {
      javaDocLines := javaDocLines + [line];
    }
  }

  /** What the hooks read of `IntrospectedTable`: the qualified name and the remarks. */
  datatype IntrospectedTable = IntrospectedTable(fullyQualifiedTable: string, remarks: Option<string>)

  /** What the hooks read of `IntrospectedColumn`: the actual name and the remarks. */
  datatype IntrospectedColumn = IntrospectedColumn(actualColumnName: string, remarks: Option<string>)

  class DefaultCommentGenerator {
    var properties: map<string, string>
    var suppressDate: bool
    var suppressAllComments: bool
    var dateFormat: Option<string>

    /** The fields as one configuration value. */
    function Config(): Settings
      reads this
    {
      Settings(properties, suppressDate, suppressAllComments, dateFormat)
    }

    constructor ()
      ensures Config() == Initial
    {
      properties := map[];
      suppressDate := false;
      suppressAllComments := false;
      dateFormat := None;
    }

    /** No file-level comment, whatever the configuration. */
    method AddJavaFileComment(compilationUnit: JavaElement)
      ensures compilationUnit.javaDocLines == old(compilationUnit.javaDocLines)
    {
    }

    /** Returns early when comments are suppressed and adds nothing otherwise. */
    method AddComment(xmlElement: JavaElement)
      ensures xmlElement.javaDocLines == old(xmlElement.javaDocLines)
    {
      if suppressAllComments {
        return;
      }
    }

    /** No document-level comment, whatever the configuration. */
    method AddRootComment(rootElement: JavaElement)
      ensures rootElement.javaDocLines == old(rootElement.javaDocLines)
    {
    }

    method AddConfigurationProperties(props: map<string, string>)
      modifies this
      ensures Config() == Merge(old(Config()), props)
    {
      properties := properties + props;
      suppressDate := IsTrue(GetProperty(props, SuppressDateKey));
      suppressAllComments := IsTrue(GetProperty(props, SuppressAllCommentsKey));
      var dateFormatString := GetProperty(props, DateFormatKey);
      if StringHasValue(dateFormatString) {
        dateFormat := dateFormatString;
      }
    }

    /** Appends the blank Javadoc line and the tag line with its mark and date. */
    method AddJavadocTag(javaElement: JavaElement, markAsDoNotDelete: bool, now: Clock)
      modifies javaElement
      ensures javaElement.javaDocLines
        == old(javaElement.javaDocLines) + JavadocTagLines(markAsDoNotDelete, DateText(Config(), now))
    {
      javaElement.AddJavaDocLine(" *");
      var sb := " * " + NewElementTag;
      if markAsDoNotDelete {
        sb := sb + DoNotDeleteMarker;
      }
      var s := GetDateString(now);
      if s.Some? {
        assert sb + [' '] + s.value == sb + (" " + s.value);
        sb := sb + [' '] + s.value;
      }
      assert sb == JavadocTagLines(markAsDoNotDelete, s)[1];
      javaElement.AddJavaDocLine(sb);
    }

    method GetDateString(now: Clock) returns (s: Option<string>)
      ensures s == DateText(Config(), now)
    {
      if suppressDate {
        s := None;
      } else if dateFormat.Some? {
        s := Some(now.format(dateFormat.value));
      } else {
        s := Some(now.dateToString);
      }
    }

    method AddClassComment(innerClass: JavaElement, introspectedTable: IntrospectedTable)
      modifies innerClass
      ensures suppressAllComments ==> innerClass.javaDocLines == old(innerClass.javaDocLines)
      ensures !suppressAllComments ==>
        innerClass.javaDocLines == old(innerClass.javaDocLines) + [TableComment(introspectedTable.fullyQualifiedTable)]
    {
      if suppressAllComments {
        return;
      }
      innerClass.AddJavaDocLine("/** " + introspectedTable.fullyQualifiedTable + " */");
    }

    /** The overload with `markAsDoNotDelete`, which it does not use. */
    method AddClassCommentMarked(innerClass: JavaElement, introspectedTable: IntrospectedTable, markAsDoNotDelete: bool)
      modifies innerClass
      ensures suppressAllComments ==> innerClass.javaDocLines == old(innerClass.javaDocLines)
      ensures !suppressAllComments ==>
        innerClass.javaDocLines == old(innerClass.javaDocLines) + [TableComment(introspectedTable.fullyQualifiedTable)]
    {
      if suppressAllComments {
        return;
      }
      innerClass.AddJavaDocLine("/** " + introspectedTable.fullyQualifiedTable + " */");
    }

    /**
     * The body the model-class, field, getter and setter hooks share: split
     * the remarks on the line separator and lay the comment out by the number
     * of pieces.
     */
    method AddRemarkComment(element: JavaElement, header: string, remarks: Option<string>, lineSeparator: string)
      requires IsLineSeparator(lineSeparator)
      modifies element
      ensures element.javaDocLines == old(element.javaDocLines) + RemarkComment(header, remarks, lineSeparator)
    {
      var remarksLineCount := 0;
      var remarkLines: seq<string> := [];
      if remarks.Some? && remarks.value != "" {
        remarkLines := Split(remarks.value, lineSeparator);
        remarksLineCount := |remarkLines|;
      }
      ghost var before := element.javaDocLines;
      assert remarkLines == RemarkPieces(remarks, lineSeparator);
      if remarksLineCount == 0 {
        element.AddJavaDocLine(header + " */");
        assert RemarkComment(header, remarks, lineSeparator) == [header + " */"];
      } else if remarksLineCount == 1 {
        element.AddJavaDocLine(header + " " + remarks.value + " */");
        assert RemarkComment(header, remarks, lineSeparator) == [header + " " + remarks.value + " */"];
      } else {
        element.AddJavaDocLine(header);
        AppendBodyLines(element, remarkLines);
        element.AddJavaDocLine(" */");
        assert RemarkComment(header, remarks, lineSeparator) == [header] + BodyLines(remarkLines) + [" */"];
        assert element.javaDocLines == before + ([header] + BodyLines(remarkLines) + [" */"]);
      }
    }

    /** The loop of the multi-line layout: one body line per remark piece, in order. */
    method AppendBodyLines(element: JavaElement, remarkLines: seq<string>)
      modifies element
      ensures element.javaDocLines == old(element.javaDocLines) + BodyLines(remarkLines)
    {
      var i := 0;
      while i < |remarkLines|
        invariant 0 <= i <= |remarkLines|
        invariant element.javaDocLines == old(element.javaDocLines) + BodyLines(remarkLines[..i])
      {
        assert BodyLines(remarkLines[..i + 1]) == BodyLines(remarkLines[..i]) + [" *  " + remarkLines[i]];
        element.AddJavaDocLine(" *  " + remarkLines[i]);
        i := i + 1;
      }
      assert remarkLines[..i] == remarkLines;
    }

    method AddModelClassComment(topLevelClass: JavaElement, introspectedTable: IntrospectedTable, lineSeparator: string)
      requires IsLineSeparator(lineSeparator)
      modifies topLevelClass
      ensures suppressAllComments ==> topLevelClass.javaDocLines == old(topLevelClass.javaDocLines)
      ensures !suppressAllComments ==>
        topLevelClass.javaDocLines == old(topLevelClass.javaDocLines)
          + RemarkComment(TableHeader(introspectedTable.fullyQualifiedTable), introspectedTable.remarks, lineSeparator)
    {
      if suppressAllComments {
        return;
      }
      AddRemarkComment(topLevelClass, "/** " + introspectedTable.fullyQualifiedTable,
        introspectedTable.remarks, lineSeparator);
    }

    method AddEnumComment(innerEnum: JavaElement, introspectedTable: IntrospectedTable)
      modifies innerEnum
      ensures suppressAllComments ==> innerEnum.javaDocLines == old(innerEnum.javaDocLines)
      ensures !suppressAllComments ==>
        innerEnum.javaDocLines == old(innerEnum.javaDocLines) + [TableComment(introspectedTable.fullyQualifiedTable)]
    {
      if suppressAllComments {
        return;
      }
      innerEnum.AddJavaDocLine("/** " + introspectedTable.fullyQualifiedTable + " */");
    }

    /** The field overload that receives a column. */
    method AddFieldComment(field: JavaElement, introspectedTable: IntrospectedTable,
                           introspectedColumn: IntrospectedColumn, lineSeparator: string)
      requires IsLineSeparator(lineSeparator)
      modifies field
      ensures suppressAllComments ==> field.javaDocLines == old(field.javaDocLines)
      ensures !suppressAllComments ==>
        field.javaDocLines == old(field.javaDocLines)
          + RemarkComment(ColumnHeader(introspectedTable.fullyQualifiedTable, introspectedColumn.actualColumnName),
                          introspectedColumn.remarks, lineSeparator)
    {
      if suppressAllComments {
        return;
      }
      AddRemarkComment(field, "/** " + introspectedTable.fullyQualifiedTable + "." + introspectedColumn.actualColumnName,
        introspectedColumn.remarks, lineSeparator);
    }

    /** The field overload that receives only the table. */
    method AddFieldCommentForTable(field: JavaElement, introspectedTable: IntrospectedTable)
      modifies field
      ensures suppressAllComments ==> field.javaDocLines == old(field.javaDocLines)
      ensures !suppressAllComments ==>
        field.javaDocLines == old(field.javaDocLines) + [TableComment(introspectedTable.fullyQualifiedTable)]
    {
      if suppressAllComments {
        return;
      }
      field.AddJavaDocLine("/** " + introspectedTable.fullyQualifiedTable + " */");
    }

    method AddGeneralMethodComment(method_: JavaElement, introspectedTable: IntrospectedTable)
      modifies method_
      ensures suppressAllComments ==> method_.javaDocLines == old(method_.javaDocLines)
      ensures !suppressAllComments ==>
        method_.javaDocLines == old(method_.javaDocLines) + [TableComment(introspectedTable.fullyQualifiedTable)]
    {
      if suppressAllComments {
        return;
      }
      method_.AddJavaDocLine("/** " + introspectedTable.fullyQualifiedTable + " */");
    }

    method AddGetterComment(method_: JavaElement, introspectedTable: IntrospectedTable,
                            introspectedColumn: IntrospectedColumn, lineSeparator: string)
      requires IsLineSeparator(lineSeparator)
      modifies method_
      ensures suppressAllComments ==> method_.javaDocLines == old(method_.javaDocLines)
      ensures !suppressAllComments ==>
        method_.javaDocLines == old(method_.javaDocLines)
          + RemarkComment(ColumnHeader(introspectedTable.fullyQualifiedTable, introspectedColumn.actualColumnName),
                          introspectedColumn.remarks, lineSeparator)
    {
      if suppressAllComments {
        return;
      }
      AddRemarkComment(method_, "/** " + introspectedTable.fullyQualifiedTable + "." + introspectedColumn.actualColumnName,
        introspectedColumn.remarks, lineSeparator);
    }

    method AddSetterComment(method_: JavaElement, introspectedTable: IntrospectedTable,
                            introspectedColumn: IntrospectedColumn, lineSeparator: string)
      requires IsLineSeparator(lineSeparator)
      modifies method_
      ensures suppressAllComments ==> method_.javaDocLines == old(method_.javaDocLines)
      ensures !suppressAllComments ==>
        method_.javaDocLines == old(method_.javaDocLines)
          + RemarkComment(ColumnHeader(introspectedTable.fullyQualifiedTable, introspectedColumn.actualColumnName),
                          introspectedColumn.remarks, lineSeparator)
    {
      if suppressAllComments {
        return;
      }
      AddRemarkComment(method_, "/** " + introspectedTable.fullyQualifiedTable + "." + introspectedColumn.actualColumnName,
        introspectedColumn.remarks, lineSeparator);
    }
  }

  /**
   * The tag line carries a date exactly when dates are not suppressed, read
   * back the way merge tooling reads it, outside the corner where an
   * unmarked tag's date text begins with the marker's word.
   */
  lemma {:induction false} TagDateUnlessSuppressed(settings: Settings, now: Clock, markAsDoNotDelete: bool)
    requires markAsDoNotDelete || DateText(settings, now).None?
      || !StartsWith(" " + DateText(settings, now).value, DoNotDeleteMarker)
    ensures var info := ParseTagLine(JavadocTagLines(markAsDoNotDelete, DateText(settings, now))[1]);
      && info.Some?
      && info.value.doNotDelete == markAsDoNotDelete
      && (info.value.date.None? <==> settings.suppressDate)
  {
    TagLineRoundTrip(markAsDoNotDelete, DateText(settings, now));
  }

  /**
   * A generator configured with `suppressAllComments` set to `"true"` adds
   * no line through any hook that checks the flag. `AddJavadocTag` does not
   * check it and still appends its two lines.
   */
  method SuppressedGeneratorAddsNothing(table: IntrospectedTable, column: IntrospectedColumn, lineSeparator: string, now: Clock)
    requires IsLineSeparator(lineSeparator)
  {
    var generator := new DefaultCommentGenerator();
    generator.AddConfigurationProperties(map[SuppressAllCommentsKey := "true"]);
    var element := new JavaElement();
    generator.AddClassComment(element, table);
    generator.AddClassCommentMarked(element, table, true);
    generator.AddModelClassComment(element, table, lineSeparator);
    generator.AddEnumComment(element, table);
    generator.AddFieldComment(element, table, column, lineSeparator);
    generator.AddFieldCommentForTable(element, table);
    generator.AddGeneralMethodComment(element, table);
    generator.AddGetterComment(element, table, column, lineSeparator);
    generator.AddSetterComment(element, table, column, lineSeparator);
    generator.AddComment(element);
    assert element.javaDocLines == [];
    generator.AddJavadocTag(element, false, now);
    assert |element.javaDocLines| == 2;
  }
}
