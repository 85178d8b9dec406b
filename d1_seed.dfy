/**
 * The export of scripts/seed-d1-from-local.mjs: every row of the local `projects` and
 * `submissions` tables becomes an `INSERT OR REPLACE` statement, with text values
 * quote-doubled inside single-quoted SQL literals. The rows are the result of the two
 * `SELECT *` queries and are given; writing the SQL file is left out.
 */
module D1Seed {
  import opened Wrappers
  import opened Strings
  import opened Seqs

  /** A row of `projects`; every column is `NOT NULL`. */
  datatype ProjectRow = ProjectRow(id: string, labelText: string, folder: string, createdAt: int, updatedAt: int)

  /** A row of `submissions`; `thumbnail`, `reviewed_at` and `reviewer_notes` may be `NULL`. */
  datatype SubmissionRow = SubmissionRow(
    id: string, projectId: string, agentName: string, labelText: string, filePath: string,
    htmlContent: string, thumbnail: Option<string>, status: string, submittedAt: int,
    reviewedAt: Option<int>, reviewerNotes: Option<string>)

  /** `str.replace(/'/g, "''")`. */
  function DoubleQuotes(s: string): string
  {
    ReplaceAll(s, '\'', "''")
  }

  /** `escapeSql`: a falsy value (`null`, `undefined`, `''`) gives `''`; otherwise every
      single quote is doubled. */
  function EscapeSql(str: Option<string>): (r: string)
    ensures str.None? || str.value == "" ==> r == ""
  {
    if str.None? || str.value == "" then "" else DoubleQuotes(str.value)
  }

  /** `'${text}'`. */
  function Quoted(text: string): string
  {
    "'" + text + "'"
  }

  /** The text a single-quoted SQL literal with body `t` denotes: `''` stands for one
      quote; `None` where a lone quote would end the literal. */
  function ReadSqlBody(t: string): Option<string>
  {
    if t == [] then Some([])
    else if t[0] == '\'' then
      if |t| >= 2 && t[1] == '\'' then Prepend('\'', ReadSqlBody(t[2..])) else None
    else Prepend(t[0], ReadSqlBody(t[1..]))
  }

  /** Collapsing `''` back to `'` recovers the text: escaping loses nothing. */
  lemma {:induction false} DoubleQuotesRoundTrip(s: string)
    ensures ReadSqlBody(DoubleQuotes(s)) == Some(s)
    decreases |s|
  {
    if s != [] {
      DoubleQuotesRoundTrip(s[1..]);
      var t := DoubleQuotes(s);
      if s[0] == '\'' {
        assert t == "''" + DoubleQuotes(s[1..]);
        assert t[2..] == DoubleQuotes(s[1..]);
      } else {
        assert t[1..] == DoubleQuotes(s[1..]);
      }
      assert s == [s[0]] + s[1..];
    }
  }

  /** `escapeSql` of any string reads back as that string; `null` reads back as `''`. */
  lemma EscapeSqlRoundTrip(str: Option<string>)
    ensures ReadSqlBody(EscapeSql(str)) == Some(if str.None? then "" else str.value)
  {
    if str.Some? {
      DoubleQuotesRoundTrip(str.value);
    }
  }

  const ProjectsInsertHead := "INSERT OR REPLACE INTO projects (id, label, folder, created_at, updated_at) VALUES ("

  /** The five values of a project's statement. */
  function ProjectValues(project: ProjectRow): seq<string>
  {
    [Quoted(DoubleQuotes(project.id)), Quoted(DoubleQuotes(project.labelText)), Quoted(DoubleQuotes(project.folder)),
     IntText(project.createdAt), IntText(project.updatedAt)]
  }

  function ProjectInsert(project: ProjectRow): string
  {
    ProjectsInsertHead + Join(ProjectValues(project), ", ") + ");"
  }

  /** A project's id, label and folder are quote-doubled and quoted; its times are
      written as numbers. */
  lemma ProjectValuesRead(project: ProjectRow)
    ensures var v := ProjectValues(project);
      |v| == 5
      && ReadSqlBody(v[0][1..|v[0]| - 1]) == Some(project.id)
      && ReadSqlBody(v[1][1..|v[1]| - 1]) == Some(project.labelText)
      && ReadSqlBody(v[2][1..|v[2]| - 1]) == Some(project.folder)
      && v[3] == IntText(project.createdAt) && v[4] == IntText(project.updatedAt)
  {
    var v := ProjectValues(project);
    QuotedBody(DoubleQuotes(project.id));
    QuotedBody(DoubleQuotes(project.labelText));
    QuotedBody(DoubleQuotes(project.folder));
    DoubleQuotesRoundTrip(project.id);
    DoubleQuotesRoundTrip(project.labelText);
    DoubleQuotesRoundTrip(project.folder);
  }

  lemma QuotedBody(text: string)
    ensures var q := Quoted(text); |q| == |text| + 2 && q[1..|q| - 1] == text
  {
  }

  /** The column list the script writes into. */
  const SubmissionsInsertHead := "INSERT OR REPLACE INTO submissions (id, project_id, agent_name, label, file_path, html_content, thumbnail, status, submitted_at, reviewed_at, reviewer_notes) VALUES ("

  /** The eleven values of a submission's statement, with the notes taken from the
      `reviewer_notes` column. The id is quoted but not escaped. */
  function SubmissionValues(submission: SubmissionRow): seq<string>
  {
    [Quoted(submission.id),
     Quoted(EscapeSql(Some(submission.projectId))),
     Quoted(EscapeSql(Some(submission.agentName))),
     Quoted(EscapeSql(Some(submission.labelText))),
     Quoted(EscapeSql(Some(submission.filePath))),
     Quoted(EscapeSql(Some(submission.htmlContent))),
     if submission.thumbnail.Some? && submission.thumbnail.value != "" then Quoted(EscapeSql(submission.thumbnail)) else "NULL",
     Quoted(EscapeSql(Some(submission.status))),
     IntText(submission.submittedAt),
     if submission.reviewedAt.Some? && submission.reviewedAt.value != 0 then IntText(submission.reviewedAt.value) else "NULL",
     if submission.reviewerNotes.Some? && submission.reviewerNotes.value != "" then Quoted(EscapeSql(submission.reviewerNotes)) else "NULL"]
  }

  function SubmissionInsert(submission: SubmissionRow): string
  {
    SubmissionsInsertHead + Join(SubmissionValues(submission), ", ") + ");"
  }

  /** The `NULL` cases: no (or an empty) thumbnail, a missing or zero review time, and
      missing or empty notes are written as `NULL`; present ones are kept. */
  lemma SubmissionNulls(submission: SubmissionRow)
    ensures var v := SubmissionValues(submission);
      |v| == 11
      && (v[6] == "NULL" <==> submission.thumbnail.None? || submission.thumbnail.value == "")
      && (v[9] == "NULL" <==> submission.reviewedAt.None? || submission.reviewedAt.value == 0)
      && (v[10] == "NULL" <==> submission.reviewerNotes.None? || submission.reviewerNotes.value == "")
  {
    var v := SubmissionValues(submission);
    assert Quoted(EscapeSql(submission.thumbnail))[0] == '\'';
    assert Quoted(EscapeSql(submission.reviewerNotes))[0] == '\'';
    if submission.reviewedAt.Some? {
      IntTextNotNull(submission.reviewedAt.value);
    }
  }

  /** No number is written as `NULL`. */
  lemma IntTextNotNull(n: int)
    ensures IntText(n) != "NULL"
  {
    var t := IntText(n);
    if n < 0 {
      assert t[0] == '-';
    } else {
      assert IsDigit(t[0]);
    }
  }

  /** Kept notes are read back from their literal. */
  lemma ReviewerNotesKept(submission: SubmissionRow, notes: string)
    requires submission.reviewerNotes == Some(notes) && notes != ""
    ensures var v := SubmissionValues(submission)[10];
      |v| >= 2 && ReadSqlBody(v[1..|v| - 1]) == Some(notes)
  {
    QuotedBody(EscapeSql(Some(notes)));
    EscapeSqlRoundTrip(Some(notes));
  }

  /** The id is not escaped: an id holding a quote ends its literal early. */
  lemma UnescapedIdBreaks(submission: SubmissionRow)
    requires submission.id == "a'b"
    ensures var v := SubmissionValues(submission)[0];
      ReadSqlBody(v[1..|v| - 1]) == None
  {
    assert Quoted("a'b")[1..4] == "a'b";
  }

  /** Both loops: one statement per project, in order, then one per submission, in order. */
  method BuildStatements(projects: seq<ProjectRow>, submissions: seq<SubmissionRow>) returns (sqlStatements: seq<string>)
    ensures sqlStatements == MapSeq(projects, ProjectInsert) + MapSeq(submissions, SubmissionInsert)
  {
    sqlStatements := [];
    var i := 0;
    while i < |projects|
      invariant 0 <= i <= |projects|
      invariant sqlStatements == MapSeq(projects[..i], ProjectInsert)
    {
      var project := projects[i];
      var statement := ProjectInsert(project);
      MapSnoc(projects, i, ProjectInsert);
      sqlStatements := sqlStatements + [statement];
      i := i + 1;
    }
    assert projects[..i] == projects;
    var j := 0;
    ghost var projectStatements := sqlStatements;
    while j < |submissions|
      invariant 0 <= j <= |submissions|
      invariant sqlStatements == projectStatements + MapSeq(submissions[..j], SubmissionInsert)
    {
      var submission := submissions[j];
      var statement := SubmissionInsert(submission);
      MapSnocAfter(projectStatements, submissions, j, SubmissionInsert);
      sqlStatements := sqlStatements + [statement];
      j := j + 1;
    }
    assert submissions[..j] == submissions;
  }

  /** Mapping one more element of `s` appends its image. */
  lemma MapSnoc<T>(s: seq<T>, n: int, g: T -> string)
    requires 0 <= n < |s|
    ensures MapSeq(s[..n + 1], g) == MapSeq(s[..n], g) + [g(s[n])]
  {
    assert s[..n + 1] == s[..n] + [s[n]];
    MapAppend(s[..n], [s[n]], g);
  }

  /** The same after statements already written: the image is appended at the very end. */
  lemma MapSnocAfter<T>(written: seq<string>, s: seq<T>, n: int, g: T -> string)
    requires 0 <= n < |s|
    ensures written + MapSeq(s[..n + 1], g) == (written + MapSeq(s[..n], g)) + [g(s[n])]
  {
    MapSnoc(s, n, g);
  }

  // ---------------------------------------------------------------------------
  // The notes column as the script names it

  /** The column list as the script writes it: the last column is `review_notes`. */
  const SubmissionsInsertHeadAsWritten := "INSERT OR REPLACE INTO submissions (id, project_id, agent_name, label, file_path, html_content, thumbnail, status, submitted_at, reviewed_at, review_notes) VALUES ("

  /** The columns of `submissions` in the schema. */
  const SubmissionColumns: seq<string> := [
    "id", "project_id", "agent_name", "label", "file_path", "html_content",
    "thumbnail", "status", "submitted_at", "reviewed_at", "reviewer_notes"]

  /** The values as the script computes them: it reads `submission.review_notes`, a
      property a `submissions` row does not have, so the notes are always `NULL`. */
  function SubmissionValuesAsWritten(submission: SubmissionRow): seq<string>
  {
    SubmissionValues(submission)[10 := "NULL"]
  }

  function SubmissionInsertAsWritten(submission: SubmissionRow): string
  {
    SubmissionsInsertHeadAsWritten + Join(SubmissionValuesAsWritten(submission), ", ") + ");"
  }

  /** As written, the reviewer's notes never reach the statement: two rows that differ
      only in their notes give the same statement, and the named column is not one of
      the table's. */
  lemma ReviewerNotesDropped(submission: SubmissionRow, notes: Option<string>)
    ensures SubmissionInsertAsWritten(submission) == SubmissionInsertAsWritten(submission.(reviewerNotes := notes))
    ensures "review_notes" !in SubmissionColumns
  {
    var other := submission.(reviewerNotes := notes);
    assert SubmissionValuesAsWritten(submission) == SubmissionValuesAsWritten(other);
    ColumnNotInSchema();
  }

  lemma ColumnNotInSchema()
    ensures "review_notes" !in SubmissionColumns
  {
    forall i | 0 <= i < |SubmissionColumns| ensures SubmissionColumns[i] != "review_notes" {
      var c := SubmissionColumns[i];
      assert |c| != 12 || c[0] != 'r';
    }
  }
}
