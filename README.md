# DefaultCommentGenerator, modelled in Dafny

MyBatis Generator calls a comment generator at every point where a generated
Java or XML element may receive documentation. `DefaultCommentGenerator`
holds three pieces of configuration (`suppressDate`, `suppressAllComments`
and an optional `SimpleDateFormat`) plus the merged configuration
properties. Each hook either does nothing or appends Javadoc lines to the
element it receives. The lines are one `/** table */` line for the
table-only hooks, a remark-driven comment for the model class, the
column-backed field and the getter and setter, and a `@mbg.generated` tag
line for `addJavadocTag`.

The project has five modules:

- `Wrappers` (`wrappers.dfy`) holds the `Option` type, which stands for a
  Java reference that may be `null`.
- `JavaStrings` (`java_strings.dfy`) models Java's `String.split` for a
  separator without regular-expression metacharacters. `SplitAll` is the
  raw left-to-right split. `Split` adds Java's two rules: a string with no
  match comes back whole, and trailing empty pieces are dropped. The lemmas
  show three things. `Join` inverts `SplitAll`. No piece contains the
  separator. `Split` loses nothing but trailing separators.
- `CommentText` (`comment_text.dfy`) holds the line texts as pure
  functions. The headers, the one-line table comment and the three-case
  remark comment are given together with `RecoverRemarks`, which reads the
  remarks back out of the lines. The tag lines are given together with
  `ParseTagLine`, which reads the mark and the date back out of them.
- `GeneratorConfig` (`generator_config.dfy`) models the configuration as a
  value. `Merge` is one call of `addConfigurationProperties`. `DateText` is
  what `getDateString` returns for a given clock reading.
- `CommentGeneration` (`default_comment_generator.dfy`) holds two classes.
  `JavaElement` owns the Javadoc line sequence of a generated element.
  `DefaultCommentGenerator` has the source's fields, and every hook is a
  method. Each hook method `modifies` only the element it receives. It is
  proved to append exactly the `CommentText` lines. Every hook except
  `AddJavadocTag` appends nothing when `suppressAllComments` is set.
  `AddRemarkComment` is the body that the four remark hooks share, and
  `AppendBodyLines` is its loop over the pieces. The scenario method
  `SuppressedGeneratorAddsNothing` configures a generator with
  `suppressAllComments` set to "true". It calls every other hook on one
  element, and the element stays without lines. It then calls
  `AddJavadocTag`, which still appends its two lines.

Three consequences of the code are worth knowing.

`addJavadocTag` ignores `suppressAllComments`: it appends its two lines
whatever the configuration (`AddJavadocTag`), and no method of the class
calls it.

The one-line layout writes the raw remarks string. With a one-character
separator, a single line of remarks that ends in the separator splits into
one piece, so the separator itself ends up inside the "single" comment line
(`RawRemarksOnSingleLine`). Remarks that
do not end in a separator are always read back exactly
(`RemarkCommentRoundTrip`).

The tag line cannot always be told apart. An unmarked tag whose date text is
exactly `do_not_delete_during_merge` has the same line as a marked tag
without a date. An unmarked tag whose date text is that word, a space and a
date `d` has the same line as a marked tag with date `d`
(`DateLooksLikeMarker`). Any other date that begins with the word is
followed by something other than a space. Its line equals no marked tag's
line, and the parser rejects it (`ForgedDateRejected`). Apart from that
corner, the mark and the date are read back exactly (`TagLineRoundTrip`).

The code writes the following:

- Body lines of a multi-line comment are ` *  piece`, with a leading space.
- The closer is ` */`, also with a leading space.
- The remarks are split on the platform line separator, not on a fixed
  `\n`.

## Model

| member | source | states |
|---|---|---|
| `CommentGeneration.DefaultCommentGenerator.constructor` | mybatis-generator-1.3.5-adjust/src/org/mybatis/generator/internal/DefaultCommentGenerator.java:54-59 | a new generator has no properties, both flags false and no date format |
| `CommentGeneration.DefaultCommentGenerator.AddJavaFileComment` | mybatis-generator-1.3.5-adjust/src/org/mybatis/generator/internal/DefaultCommentGenerator.java:64-66 | the compilation unit's lines are unchanged, whatever the configuration |
| `CommentGeneration.DefaultCommentGenerator.AddComment` | mybatis-generator-1.3.5-adjust/src/org/mybatis/generator/internal/DefaultCommentGenerator.java:71-75 | the XML element's lines are unchanged, suppressed or not |
| `CommentGeneration.DefaultCommentGenerator.AddRootComment` | mybatis-generator-1.3.5-adjust/src/org/mybatis/generator/internal/DefaultCommentGenerator.java:80-82 | the root element's lines are unchanged, whatever the configuration |
| `CommentGeneration.DefaultCommentGenerator.AddConfigurationProperties` | mybatis-generator-1.3.5-adjust/src/org/mybatis/generator/internal/DefaultCommentGenerator.java:87-96 | the new fields are `Merge` of the old fields and the argument |
| `GeneratorConfig.Merge` | mybatis-generator-1.3.5-adjust/src/org/mybatis/generator/internal/DefaultCommentGenerator.java:87-96 | stored keys are the union of old and new keys, and the argument's values win; each flag holds iff its key is present in the argument with value "true" in any case; the date format becomes the argument's pattern when that is non-empty and is kept otherwise |
| `GeneratorConfig.MissingKeyResetsFlags` | mybatis-generator-1.3.5-adjust/src/org/mybatis/generator/internal/DefaultCommentGenerator.java:89-90 | a flag whose key is absent from the latest argument is false, even if an earlier call set it |
| `GeneratorConfig.FlagsIgnoreStoredProperties` | mybatis-generator-1.3.5-adjust/src/org/mybatis/generator/internal/DefaultCommentGenerator.java:88-90 | both flags depend on the latest argument only, never on the merged store |
| `GeneratorConfig.DateFormatSurvives` | mybatis-generator-1.3.5-adjust/src/org/mybatis/generator/internal/DefaultCommentGenerator.java:92-95 | a pattern set by one call survives a later call that has no non-empty pattern |
| `GeneratorConfig.LastWriteWins` | mybatis-generator-1.3.5-adjust/src/org/mybatis/generator/internal/DefaultCommentGenerator.java:88-89 | setting suppressDate to "true" and then "false" leaves the flag false and the store holding "false" |
| `GeneratorConfig.DateText` | mybatis-generator-1.3.5-adjust/src/org/mybatis/generator/internal/DefaultCommentGenerator.java:121-129 | no date iff suppressDate; otherwise the configured pattern's rendering when a format is set, else the clock's `toString` rendering |
| `CommentGeneration.DefaultCommentGenerator.GetDateString` | mybatis-generator-1.3.5-adjust/src/org/mybatis/generator/internal/DefaultCommentGenerator.java:121-129 | returns `DateText` of the current fields and the clock, and changes nothing |
| `CommentText.JavadocTagLines` | mybatis-generator-1.3.5-adjust/src/org/mybatis/generator/internal/DefaultCommentGenerator.java:102-116 | exactly two lines; the first is " *"; the second starts with " * " and the tag, continues with the marker when the element is marked, is the bare tag line when there is neither mark nor date, and ends with a space and the date when there is one |
| `CommentText.TagLineRoundTrip` | mybatis-generator-1.3.5-adjust/src/org/mybatis/generator/internal/DefaultCommentGenerator.java:103-115 | parsing the tag line gives back the mark and the date, unless an unmarked line carries a date that begins like the marker |
| `CommentText.DateLooksLikeMarker` | mybatis-generator-1.3.5-adjust/src/org/mybatis/generator/internal/DefaultCommentGenerator.java:107-114 | an unmarked tag whose date is the marker word alone gives the lines of a marked tag without a date; with the word, a space and a date d, the lines of a marked tag with date d |
| `CommentText.ForgedDateRejected` | mybatis-generator-1.3.5-adjust/src/org/mybatis/generator/internal/DefaultCommentGenerator.java:107-114 | an unmarked tag whose date is the marker word followed by a non-space character gives a line that no marked tag gives and that the parser rejects |
| `CommentGeneration.DefaultCommentGenerator.AddJavadocTag` | mybatis-generator-1.3.5-adjust/src/org/mybatis/generator/internal/DefaultCommentGenerator.java:102-116 | appends exactly `JavadocTagLines` of the mark and `DateText` to the element |
| `CommentGeneration.TagDateUnlessSuppressed` | mybatis-generator-1.3.5-adjust/src/org/mybatis/generator/internal/DefaultCommentGenerator.java:110-115 | read back by a parser, the tag line has a date iff suppressDate is false, and it has the mark iff the element was marked; this holds outside the corner where an unmarked tag's date text begins with the marker word (`DateLooksLikeMarker`) |
| `CommentText.TableComment` | mybatis-generator-1.3.5-adjust/src/org/mybatis/generator/internal/DefaultCommentGenerator.java:135-137 | the line opens with "/** ", closes with " */" and holds exactly the table name in between |
| `CommentGeneration.DefaultCommentGenerator.AddClassComment` | mybatis-generator-1.3.5-adjust/src/org/mybatis/generator/internal/DefaultCommentGenerator.java:131-138 | nothing is appended when suppressed; otherwise exactly one line, the table comment |
| `CommentGeneration.DefaultCommentGenerator.AddClassCommentMarked` | mybatis-generator-1.3.5-adjust/src/org/mybatis/generator/internal/DefaultCommentGenerator.java:140-147 | the same as the two-argument overload, whatever markAsDoNotDelete is |
| `CommentGeneration.DefaultCommentGenerator.AddEnumComment` | mybatis-generator-1.3.5-adjust/src/org/mybatis/generator/internal/DefaultCommentGenerator.java:183-190 | nothing is appended when suppressed; otherwise exactly one line, the table comment |
| `CommentGeneration.DefaultCommentGenerator.AddFieldCommentForTable` | mybatis-generator-1.3.5-adjust/src/org/mybatis/generator/internal/DefaultCommentGenerator.java:227-234 | nothing is appended when suppressed; otherwise exactly one line, the table comment |
| `CommentGeneration.DefaultCommentGenerator.AddGeneralMethodComment` | mybatis-generator-1.3.5-adjust/src/org/mybatis/generator/internal/DefaultCommentGenerator.java:236-243 | nothing is appended when suppressed; otherwise exactly one line, the table comment |
| `CommentText.RemarkPieces` | mybatis-generator-1.3.5-adjust/src/org/mybatis/generator/internal/DefaultCommentGenerator.java:153-161 | no pieces exactly when the remarks are null or made of separators only, including the empty string; no piece contains the separator |
| `CommentText.RemarkComment` | mybatis-generator-1.3.5-adjust/src/org/mybatis/generator/internal/DefaultCommentGenerator.java:153-180 | one line for zero or one remark pieces and n+2 lines for n >= 2; the first line starts with the header; the last line ends with " */" |
| `CommentText.RemarkCommentLayout` | mybatis-generator-1.3.5-adjust/src/org/mybatis/generator/internal/DefaultCommentGenerator.java:164-180 | zero pieces give the header closed on its line; one piece gives header, space, the raw remarks and closer; more give the header, " *  " plus each piece in order, and " */" |
| `CommentText.NoRemarksComment` | mybatis-generator-1.3.5-adjust/src/org/mybatis/generator/internal/DefaultCommentGenerator.java:153-167 | null and empty remarks both give the single line header + " */" |
| `CommentText.SingleLineRemarks` | mybatis-generator-1.3.5-adjust/src/org/mybatis/generator/internal/DefaultCommentGenerator.java:169-172 | non-empty remarks without a line separator go verbatim onto the header line |
| `CommentText.RemarkCommentKeepsRemarks` | mybatis-generator-1.3.5-adjust/src/org/mybatis/generator/internal/DefaultCommentGenerator.java:156-179 | the remarks read back from the comment, followed by some number of separators, equal the original remarks |
| `CommentText.RemarkCommentRoundTrip` | mybatis-generator-1.3.5-adjust/src/org/mybatis/generator/internal/DefaultCommentGenerator.java:156-179 | remarks that do not end in a separator are read back exactly |
| `CommentText.RawRemarksOnSingleLine` | mybatis-generator-1.3.5-adjust/src/org/mybatis/generator/internal/DefaultCommentGenerator.java:156-171 | a piece followed by a one-character separator splits into that one piece, yet the single comment line carries the raw text, separator included |
| `CommentText.ExampleNoRemarks` | mybatis-generator-1.3.5-adjust/src/org/mybatis/generator/internal/DefaultCommentGenerator.java:163-167 | table s.t without remarks gives "/** s.t */"; column c of it gives "/** s.t.c */" |
| `CommentText.ExampleOneLine` | mybatis-generator-1.3.5-adjust/src/org/mybatis/generator/internal/DefaultCommentGenerator.java:169-171 | remarks "ab" on table s.t give "/** s.t ab */" |
| `CommentText.ExampleTwoPieces` | mybatis-generator-1.3.5-adjust/src/org/mybatis/generator/internal/DefaultCommentGenerator.java:158-178 | "ab\ncd" split on "\n" is ["ab", "cd"], and with table s.t the remark comment is "/** s.t", " *  ab", " *  cd", " */" |
| `CommentText.TwoPieceLayout` | mybatis-generator-1.3.5-adjust/src/org/mybatis/generator/internal/DefaultCommentGenerator.java:173-178 | two pieces give the header, one body line per piece and the closer: four lines |
| `CommentGeneration.DefaultCommentGenerator.AddRemarkComment` | mybatis-generator-1.3.5-adjust/src/org/mybatis/generator/internal/DefaultCommentGenerator.java:153-180 | appends exactly `RemarkComment` of the header, the remarks and the separator |
| `CommentGeneration.DefaultCommentGenerator.AppendBodyLines` | mybatis-generator-1.3.5-adjust/src/org/mybatis/generator/internal/DefaultCommentGenerator.java:175-177 | appends " *  " + piece for every piece, in order, and nothing else |
| `CommentGeneration.DefaultCommentGenerator.AddModelClassComment` | mybatis-generator-1.3.5-adjust/src/org/mybatis/generator/internal/DefaultCommentGenerator.java:149-181 | nothing is appended when suppressed; otherwise the remark comment under the table header "/** " + table |
| `CommentGeneration.DefaultCommentGenerator.AddFieldComment` | mybatis-generator-1.3.5-adjust/src/org/mybatis/generator/internal/DefaultCommentGenerator.java:192-225 | nothing is appended when suppressed; otherwise the remark comment under the column header "/** " + table + "." + column, with the column's remarks |
| `CommentGeneration.DefaultCommentGenerator.AddGetterComment` | mybatis-generator-1.3.5-adjust/src/org/mybatis/generator/internal/DefaultCommentGenerator.java:245-278 | the same lines as `AddFieldComment` for the same inputs |
| `CommentGeneration.DefaultCommentGenerator.AddSetterComment` | mybatis-generator-1.3.5-adjust/src/org/mybatis/generator/internal/DefaultCommentGenerator.java:280-313 | the same lines as `AddFieldComment` for the same inputs |
| `JavaStrings.SplitAll` | mybatis-generator-1.3.5-adjust/src/org/mybatis/generator/internal/DefaultCommentGenerator.java:158 | the raw split yields at least one piece, and its first piece is a prefix of the string |
| `JavaStrings.Split` | mybatis-generator-1.3.5-adjust/src/org/mybatis/generator/internal/DefaultCommentGenerator.java:158 | a single raw piece means no match, and the string comes back whole; otherwise the result is a prefix of the raw pieces that is empty or ends in a non-empty piece, and every dropped piece is empty |
| `JavaStrings.SplitEmptyIffOnlySeparators` | mybatis-generator-1.3.5-adjust/src/org/mybatis/generator/internal/DefaultCommentGenerator.java:158 | a non-empty string splits into no pieces exactly when it is the separator repeated |
| `JavaStrings.DropTrailingEmpty` | mybatis-generator-1.3.5-adjust/src/org/mybatis/generator/internal/DefaultCommentGenerator.java:158 | the result is a prefix of the pieces; its last piece is non-empty; every dropped piece is empty |
| `JavaStrings.JoinSplitAll` | mybatis-generator-1.3.5-adjust/src/org/mybatis/generator/internal/DefaultCommentGenerator.java:158 | joining the raw pieces with the separator gives back the string |
| `JavaStrings.SplitAllPiecesFree` | mybatis-generator-1.3.5-adjust/src/org/mybatis/generator/internal/DefaultCommentGenerator.java:158 | no raw piece contains the separator |
| `JavaStrings.SplitAllManyContains` | mybatis-generator-1.3.5-adjust/src/org/mybatis/generator/internal/DefaultCommentGenerator.java:158 | two or more raw pieces mean the separator occurs right after the first piece |
| `JavaStrings.SplitAllNoMatch` | mybatis-generator-1.3.5-adjust/src/org/mybatis/generator/internal/DefaultCommentGenerator.java:158 | a string without the separator is one raw piece |
| `JavaStrings.SplitAllAtFirstSeparator` | mybatis-generator-1.3.5-adjust/src/org/mybatis/generator/internal/DefaultCommentGenerator.java:158 | with a one-character separator, the first piece ends at the first separator and splitting resumes after it |
| `JavaStrings.SplitNoMatch` | mybatis-generator-1.3.5-adjust/src/org/mybatis/generator/internal/DefaultCommentGenerator.java:158 | Java's no-match rule: a string without the separator splits into itself |
| `JavaStrings.SplitPiecesFree` | mybatis-generator-1.3.5-adjust/src/org/mybatis/generator/internal/DefaultCommentGenerator.java:158 | no piece of Split contains the separator |
| `JavaStrings.SplitLosesOnlyTrailingSeparators` | mybatis-generator-1.3.5-adjust/src/org/mybatis/generator/internal/DefaultCommentGenerator.java:158 | the string is the join of its Split pieces followed by some number of separators |
| `JavaStrings.SplitJoinRoundTrip` | mybatis-generator-1.3.5-adjust/src/org/mybatis/generator/internal/DefaultCommentGenerator.java:158 | a string that does not end in the separator is exactly the join of its Split pieces |

## Left out

- The clock: `new Date()`, `Date.toString()` and `SimpleDateFormat.format` are replaced by a `Clock` value. It carries the default rendering and a function from pattern to rendered text. The rendered text itself is not modelled.
- Invalid date patterns: `new SimpleDateFormat` can throw `IllegalArgumentException` inside `addConfigurationProperties`. Pattern syntax is not modelled, so every pattern is accepted and stored as its string.
- `StringUtility` is not part of this model. `IsTrue` is taken to be a case-insensitive comparison with "true" on ASCII letters, and false for `null`. `StringHasValue` is "not null and not empty".
- `MergeConstants` and `PropertyRegistry` are not part of this model. Their constants are given the MyBatis Generator 1.3.5 texts ("@mbg.generated", "suppressDate", "suppressAllComments", "dateFormat"). No contract depends on those texts.
- The DOM classes (`CompilationUnit`, `TopLevelClass`, `InnerClass`, `InnerEnum`, `Field`, `Method`, `XmlElement`) are reduced to `JavaElement`, a class owning its Javadoc line sequence. `IntrospectedTable` keeps only the qualified table name and the remarks, and `IntrospectedColumn` keeps only the actual column name and the remarks. `FullyQualifiedTable.toString()` is that name string.
- `System.getProperty("line.separator")` becomes the `lineSeparator` parameter of the remark hooks. It is restricted to "\n", "\r\n" or "\r". None of these holds a regular-expression metacharacter, so the regular-expression engine behind `String.split` is not modelled.
- `java.util.Properties` is a `map<string, string>`; its chain of default properties is not modelled.
- Java overloads get distinct names: `AddClassCommentMarked` is the three-argument `addClassComment`, and `AddFieldCommentForTable` is `addFieldComment(Field, IntrospectedTable)`.
- The four copies of the remark-formatting code (model class, field, getter, setter) are one method, `AddRemarkComment`, which each hook calls after its suppression check. Its loop over the pieces is the method `AppendBodyLines`.
- The code-generation driver that calls the hooks is not part of this model.
