/**
 * The seed generator of scripts/build-seed-from-html.js: reference HTML pages are read
 * from the project directories, escaped for a template literal, and collected per
 * project with a label that is later written inside a single-quoted literal. The
 * directory listing and the file reads are parameters.
 */
module SeedBuilder {
  import opened Wrappers
  import opened Strings
  import opened Seqs

  // ---------------------------------------------------------------------------
  // Escaping for a template literal

  /** `str.replace(/\${/g, '\\${')`: a left-to-right scan for the two characters `${`. */
  function EscapeInterpolations(s: string): string
  {
    if |s| >= 2 && s[0] == '$' && s[1] == '{' then "\\${" + EscapeInterpolations(s[2..])
    else if s == [] then []
    else [s[0]] + EscapeInterpolations(s[1..])
  }

  /** `escapeTemplateLiteral`: backslashes doubled first, then backticks and `${`
      escaped. */
  function EscapeTemplateLiteral(s: string): string
  {
    EscapeInterpolations(ReplaceAll(ReplaceAll(s, '\\', "\\\\"), '`', "\\`"))
  }

  /** The same escaping read off one character (or one `${`) at a time. */
  function EscapeOnePass(s: string): string
  {
    if s == [] then []
    else if s[0] == '\\' || s[0] == '`' then ['\\', s[0]] + EscapeOnePass(s[1..])
    else if |s| >= 2 && s[0] == '$' && s[1] == '{' then "\\${" + EscapeOnePass(s[2..])
    else [s[0]] + EscapeOnePass(s[1..])
  }

  /** The string a template literal with body `t` denotes. `None` where `t` would end
      the literal (a bare backtick), interpolate (a bare `${`), or use an escape other
      than `\\`, `` \` `` and `\$`. A line break written as CR LF or as a lone CR
      denotes a single LF. */
  function ReadTemplateBody(t: string): Option<string>
  {
    if t == [] then Some([])
    else if t[0] == '`' then None
    else if |t| >= 2 && t[0] == '$' && t[1] == '{' then None
    else if t[0] == '\\' then
      if |t| >= 2 && (t[1] == '\\' || t[1] == '`' || t[1] == '$') then Prepend(t[1], ReadTemplateBody(t[2..]))
      else None
    else if t[0] == '\r' then
      if |t| >= 2 && t[1] == '\n' then Prepend('\n', ReadTemplateBody(t[2..]))
      else Prepend('\n', ReadTemplateBody(t[1..]))
    else Prepend(t[0], ReadTemplateBody(t[1..]))
  }

  /** The text with every CR LF and every lone CR turned into LF. */
  function NormalizeLineEnds(s: string): string
  {
    if s == [] then []
    else if s[0] == '\r' then
      if |s| >= 2 && s[1] == '\n' then "\n" + NormalizeLineEnds(s[2..])
      else "\n" + NormalizeLineEnds(s[1..])
    else [s[0]] + NormalizeLineEnds(s[1..])
  }

  /** Text without carriage returns is already normalised. */
  lemma {:induction false} NormalizeWithoutCr(s: string)
    requires '\r' !in s
    ensures NormalizeLineEnds(s) == s
    decreases |s|
  {
    if s != [] {
      assert '\r' !in s[1..] by {
        forall i | 0 <= i < |s[1..]| ensures s[1..][i] == s[i + 1] { }
      }
      NormalizeWithoutCr(s[1..]);
      assert s == [s[0]] + s[1..];
    }
  }

  /** The two backslash and backtick passes, one character at a time. */
  function EscapeQuoting(s: string): string
  {
    ReplaceAll(ReplaceAll(s, '\\', "\\\\"), '`', "\\`")
  }

  lemma EscapeQuotingCons(s: string)
    requires s != []
    ensures EscapeQuoting(s) == EscapeQuoting([s[0]]) + EscapeQuoting(s[1..])
    ensures EscapeQuoting([s[0]]) == if s[0] == '\\' || s[0] == '`' then ['\\', s[0]] else [s[0]]
  {
    assert s == [s[0]] + s[1..];
    ReplaceAllAppend([s[0]], s[1..], '\\', "\\\\");
    ReplaceAllAppend(ReplaceAll([s[0]], '\\', "\\\\"), ReplaceAll(s[1..], '\\', "\\\\"), '`', "\\`");
    if s[0] == '\\' {
      assert ReplaceAll([s[0]], '\\', "\\\\") == "\\\\";
      assert ReplaceAll("\\\\", '`', "\\`") == ['\\'] + ReplaceAll("\\", '`', "\\`");
    }
  }

  /** A character other than `$` passes the interpolation scan unchanged. */
  lemma InterpolationsSkip(c: char, x: string)
    requires c != '$'
    ensures EscapeInterpolations([c] + x) == [c] + EscapeInterpolations(x)
  {
    assert ([c] + x)[1..] == x;
  }

  lemma InterpolationsDollar(x: string)
    requires x == [] || x[0] != '{'
    ensures EscapeInterpolations("$" + x) == "$" + EscapeInterpolations(x)
  {
    assert ("$" + x)[1..] == x;
  }

  lemma InterpolationsDollarBrace(x: string)
    ensures EscapeInterpolations("${" + x) == "\\${" + EscapeInterpolations(x)
  {
    assert ("${" + x)[2..] == x;
  }

  /** The three passes amount to the one-pass escaping. */
  lemma {:induction false} EscapeInOnePass(s: string)
    ensures EscapeTemplateLiteral(s) == EscapeOnePass(s)
    decreases |s|
  {
    if s == [] {
    } else if s[0] == '\\' || s[0] == '`' {
      EscapeInOnePass(s[1..]);
      QuotedCase(s);
    } else if |s| >= 2 && s[0] == '$' && s[1] == '{' {
      EscapeInOnePass(s[2..]);
      DollarBraceCase(s);
    } else {
      EscapeInOnePass(s[1..]);
      PlainCase(s);
    }
  }

  lemma QuotedCase(s: string)
    requires s != [] && (s[0] == '\\' || s[0] == '`')
    requires EscapeTemplateLiteral(s[1..]) == EscapeOnePass(s[1..])
    ensures EscapeTemplateLiteral(s) == EscapeOnePass(s)
  {
    var rest := EscapeQuoting(s[1..]);
    EscapeQuotingCons(s);
    PairCons('\\', s[0], rest);
    PairCons('\\', s[0], EscapeInterpolations(rest));
    InterpolationsSkip(s[0], rest);
    InterpolationsSkip('\\', [s[0]] + rest);
    assert EscapeOnePass(s) == ['\\', s[0]] + EscapeOnePass(s[1..]);
  }

  lemma PairCons(a: char, b: char, r: string)
    ensures [a, b] + r == [a] + ([b] + r)
  {
  }

  lemma DollarBraceCase(s: string)
    requires |s| >= 2 && s[0] == '$' && s[1] == '{'
    requires EscapeTemplateLiteral(s[2..]) == EscapeOnePass(s[2..])
    ensures EscapeTemplateLiteral(s) == EscapeOnePass(s)
  {
    EscapeQuotingCons(s);
    EscapeQuotingCons(s[1..]);
    assert EscapeQuoting(s) == "${" + EscapeQuoting(s[2..]);
    InterpolationsDollarBrace(EscapeQuoting(s[2..]));
  }

  lemma PlainCase(s: string)
    requires s != [] && s[0] != '\\' && s[0] != '`' && !(|s| >= 2 && s[0] == '$' && s[1] == '{')
    requires EscapeTemplateLiteral(s[1..]) == EscapeOnePass(s[1..])
    ensures EscapeTemplateLiteral(s) == EscapeOnePass(s)
  {
    EscapeQuotingCons(s);
    var rest := EscapeQuoting(s[1..]);
    if s[0] == '$' {
      if s[1..] != [] {
        EscapeQuotingCons(s[1..]);
      }
      InterpolationsDollar(rest);
    } else {
      InterpolationsSkip(s[0], rest);
    }
  }

  /** The one-pass escaping starts with `{`, or with LF, exactly when its input does. */
  lemma OnePassHead(s: string)
    ensures EscapeOnePass(s) == [] <==> s == []
    ensures s != [] ==> (EscapeOnePass(s)[0] == '{' <==> s[0] == '{')
    ensures s != [] ==> (EscapeOnePass(s)[0] == '\n' <==> s[0] == '\n')
  {
  }

  /** Reading the escaped text back as a template literal body gives the original, with
      its line ends normalised. */
  lemma {:induction false} ReadEscapedOnePass(s: string)
    ensures ReadTemplateBody(EscapeOnePass(s)) == Some(NormalizeLineEnds(s))
    decreases |s|
  {
    if s != [] {
      var t := EscapeOnePass(s);
      if s[0] == '\\' || s[0] == '`' {
        ReadEscapedOnePass(s[1..]);
        assert t[2..] == EscapeOnePass(s[1..]);
      } else if |s| >= 2 && s[0] == '$' && s[1] == '{' {
        var r := EscapeOnePass(s[2..]);
        ReadEscapedOnePass(s[2..]);
        assert t == "\\${" + r;
        assert ("{" + r)[1..] == r;
        assert ReadTemplateBody("{" + r) == Prepend('{', ReadTemplateBody(r));
        assert t[2..] == "{" + r;
        assert ReadTemplateBody(t) == Prepend('$', ReadTemplateBody("{" + r));
        assert s[1..][1..] == s[2..];
        assert NormalizeLineEnds(s[1..]) == "{" + NormalizeLineEnds(s[2..]);
      } else if s[0] == '\r' && |s| >= 2 && s[1] == '\n' {
        ReadEscapedOnePass(s[2..]);
        assert EscapeOnePass(s[1..]) == "\n" + EscapeOnePass(s[2..]) by {
          assert s[1..][1..] == s[2..];
        }
        assert t[2..] == EscapeOnePass(s[2..]);
      } else {
        ReadEscapedOnePass(s[1..]);
        OnePassHead(s[1..]);
        assert t[1..] == EscapeOnePass(s[1..]);
      }
    }
  }

  /** `escapeTemplateLiteral` loses nothing but carriage returns: the seed file's
      template literal denotes the HTML that was read with its line ends normalised,
      and exactly that HTML when it has no carriage return. */
  lemma TemplateRoundTrip(html: string)
    ensures ReadTemplateBody(EscapeTemplateLiteral(html)) == Some(NormalizeLineEnds(html))
    ensures '\r' !in html ==> ReadTemplateBody(EscapeTemplateLiteral(html)) == Some(html)
  {
    EscapeInOnePass(html);
    ReadEscapedOnePass(html);
    if '\r' !in html {
      NormalizeWithoutCr(html);
    }
  }

  /** A page saved with CR LF line ends comes back with LF alone. */
  lemma CrLfBecomesLf()
    ensures ReadTemplateBody(EscapeTemplateLiteral("a\r\nb")) == Some("a\nb")
  {
    TemplateRoundTrip("a\r\nb");
    var s := "a\r\nb";
    assert s[1..] == "\r\nb" && s[1..][2..] == "b";
    assert NormalizeLineEnds("b") == "b";
    assert NormalizeLineEnds(s[1..]) == "\nb";
    assert NormalizeLineEnds(s) == "a\nb";
  }

  /** The order matters: escaping backticks before doubling backslashes would turn a
      backtick into two backslashes and a bare backtick, which ends the literal. */
  lemma BacktickFirstWouldBreak()
    ensures ReadTemplateBody(ReplaceAll(ReplaceAll("`", '`', "\\`"), '\\', "\\\\")) == None
  {
    assert ReplaceAll("`", '`', "\\`") == "\\`";
    assert ReplaceAll("\\`", '\\', "\\\\") == "\\\\`";
  }

  // ---------------------------------------------------------------------------
  // The label inside a single-quoted literal

  /** `label.replace(/'/g, "\\'")`. */
  function EscapeLabel(labelText: string): string
  {
    ReplaceAll(labelText, '\'', "\\'")
  }

  /** The string a single-quoted literal with body `t` denotes. `None` where `t` would
      end the literal (a bare quote or a line break) or use an escape other than `\'`
      and `\\`. */
  function ReadSingleQuotedBody(t: string): Option<string>
  {
    if t == [] then Some([])
    else if t[0] == '\'' || t[0] == '\n' || t[0] == '\r' then None
    else if t[0] == '\\' then
      if |t| >= 2 && (t[1] == '\'' || t[1] == '\\') then Prepend(t[1], ReadSingleQuotedBody(t[2..]))
      else None
    else Prepend(t[0], ReadSingleQuotedBody(t[1..]))
  }

  /** A label without backslashes or line breaks is read back from its literal. */
  lemma {:induction false} LabelRoundTrip(labelText: string)
    requires '\\' !in labelText && '\n' !in labelText && '\r' !in labelText
    ensures ReadSingleQuotedBody(EscapeLabel(labelText)) == Some(labelText)
    decreases |labelText|
  {
    if labelText != [] {
      var rest := labelText[1..];
      assert '\\' !in rest && '\n' !in rest && '\r' !in rest by {
        forall i | 0 <= i < |rest| ensures rest[i] == labelText[i + 1] { }
      }
      LabelRoundTrip(rest);
      var t := EscapeLabel(labelText);
      if labelText[0] == '\'' {
        assert t == "\\'" + EscapeLabel(rest);
        assert t[2..] == EscapeLabel(rest);
      } else {
        assert t[1..] == EscapeLabel(rest);
      }
      assert labelText == [labelText[0]] + rest;
    }
  }

  /** Backslashes are not escaped: a label ending in one is not read back. */
  lemma TrailingBackslashLabel()
    ensures ReadSingleQuotedBody(EscapeLabel("a\\")) != Some("a\\")
  {
    assert EscapeLabel("a\\") == "a\\";
  }

  // ---------------------------------------------------------------------------
  // Collecting the seed data

  /** `table[key]` on an object literal, read as a table of own entries. */
  function TableGet(table: seq<(string, string)>, key: string): (r: Option<string>)
    ensures r.Some? ==> exists i | 0 <= i < |table| :: table[i] == (key, r.value)
    ensures r.None? ==> forall i | 0 <= i < |table| :: table[i].0 != key
  {
    if table == [] then None
    else if table[0].0 == key then Some(table[0].1)
    else
      var r := TableGet(table[1..], key);
      assert r.Some? ==> table[1..][0] == table[1];
      r
  }

  /** `projectIdMap`. */
  const ProjectIdMap: seq<(string, string)> := [
    ("conways-game-of-life", "conways-game-of-life"),
    ("particle-gravity", "particle-gravity"),
    ("pathfinding-visualizer", "pathfinding-visualizer"),
    ("traffic-simulation", "traffic-simulation"),
    ("wave-patterns", "wave-patterns")]

  /** `projectLabels`. */
  const ProjectLabels: seq<(string, string)> := [
    ("conways-game-of-life", "Conway's Game of Life"),
    ("particle-gravity", "Particle Gravity Simulation"),
    ("pathfinding-visualizer", "Pathfinding Algorithm Visualizer"),
    ("traffic-simulation", "Traffic Simulation"),
    ("wave-patterns", "Wave Pattern Generator")]

  /** Every known directory maps to the project of the same name. */
  lemma ProjectIdMapIsIdentity(dir: string)
    ensures TableGet(ProjectIdMap, dir).Some? ==> TableGet(ProjectIdMap, dir).value == dir
  {
    forall i | 0 <= i < |ProjectIdMap| ensures ProjectIdMap[i].0 == ProjectIdMap[i].1 { }
  }

  datatype SeedSubmission = SeedSubmission(agentName: string, labelText: string, htmlContent: string)

  /** The seed data: project ids with their submissions, in insertion order. */
  type SeedData = seq<(string, seq<SeedSubmission>)>

  /** `${projectLabels[projectId]} - Reference`. */
  function ReferenceLabel(labels: seq<(string, string)>, projectId: string): string
  {
    TableGet(labels, projectId).GetOr("undefined") + " - Reference"
  }

  /** The directory leads to a submission: it is a known project and its reference page
      was read and is not empty. */
  predicate Kept(idMap: seq<(string, string)>, read: string -> Option<string>, dir: string)
  {
    TableGet(idMap, dir).Some? && read(dir).Some? && read(dir).value != []
  }

  /** The submission a kept directory contributes. */
  function SubmissionFor(idMap: seq<(string, string)>, labels: seq<(string, string)>, read: string -> Option<string>, dir: string): SeedSubmission
    requires Kept(idMap, read, dir)
  {
    SeedSubmission("reference", ReferenceLabel(labels, TableGet(idMap, dir).value), EscapeTemplateLiteral(read(dir).value))
  }

  /** Where `key` sits among the seed data's keys. */
  function KeyIndex(data: SeedData, key: string): (r: Option<nat>)
    ensures r.Some? ==> r.value < |data| && data[r.value].0 == key
    ensures r.None? ==> forall i | 0 <= i < |data| :: data[i].0 != key
  {
    if data == [] then None
    else if data[0].0 == key then Some(0)
    else
      var r := KeyIndex(data[1..], key);
      if r.None? then None else Some(r.value + 1)
  }

  /** `seedData[key] ||= []; seedData[key].push(x)`. */
  function Push(data: SeedData, key: string, x: SeedSubmission): SeedData
  {
    match KeyIndex(data, key)
    case None => data + [(key, [x])]
    case Some(i) => data[i := (key, data[i].1 + [x])]
  }

  /** One turn of `buildSeedData`'s loop. */
  function Step(idMap: seq<(string, string)>, labels: seq<(string, string)>, read: string -> Option<string>, data: SeedData, dir: string): SeedData
  {
    if Kept(idMap, read, dir) then Push(data, TableGet(idMap, dir).value, SubmissionFor(idMap, labels, read, dir))
    else data
  }

  /** The seed data after the loop has seen `dirs`. */
  function SeedDataOf(idMap: seq<(string, string)>, labels: seq<(string, string)>, read: string -> Option<string>, dirs: seq<string>): SeedData
  {
    if dirs == [] then []
    else Step(idMap, labels, read, SeedDataOf(idMap, labels, read, dirs[..|dirs| - 1]), dirs[|dirs| - 1])
  }

  lemma SeedDataSnoc(idMap: seq<(string, string)>, labels: seq<(string, string)>, read: string -> Option<string>, dirs: seq<string>, i: int)
    requires 0 <= i < |dirs|
    ensures SeedDataOf(idMap, labels, read, dirs[..i + 1]) == Step(idMap, labels, read, SeedDataOf(idMap, labels, read, dirs[..i]), dirs[i])
  {
    assert dirs[..i + 1][..i] == dirs[..i];
  }

  /** `buildSeedData` over the listed project directories. */
  method BuildSeedData(projectDirs: seq<string>, read: string -> Option<string>) returns (seedData: SeedData)
    ensures seedData == SeedDataOf(ProjectIdMap, ProjectLabels, read, projectDirs)
  {
    seedData := [];
    var i := 0;
    while i < |projectDirs|
      invariant 0 <= i <= |projectDirs|
      invariant seedData == SeedDataOf(ProjectIdMap, ProjectLabels, read, projectDirs[..i])
    {
      var projectDir := projectDirs[i];
      var projectId := TableGet(ProjectIdMap, projectDir);
      if projectId.Some? {
        var htmlContent := read(projectDir);
        if htmlContent.Some? && htmlContent.value != "" {
          var entry := SeedSubmission("reference", ReferenceLabel(ProjectLabels, projectId.value), EscapeTemplateLiteral(htmlContent.value));
          seedData := Push(seedData, projectId.value, entry);
        }
      }
      SeedDataSnoc(ProjectIdMap, ProjectLabels, read, projectDirs, i);
      i := i + 1;
    }
    assert projectDirs[..i] == projectDirs;
  }

  /** A kept directory's entry: its project id with its one reference submission. */
  function EntryFor(idMap: seq<(string, string)>, labels: seq<(string, string)>, read: string -> Option<string>): string -> (string, seq<SeedSubmission>)
  {
    (dir: string) =>
      if Kept(idMap, read, dir) then (TableGet(idMap, dir).value, [SubmissionFor(idMap, labels, read, dir)])
      else ("", [])
  }

  /** The kept directories lead to different projects. */
  predicate DistinctProjects(idMap: seq<(string, string)>, read: string -> Option<string>, dirs: seq<string>)
  {
    forall i, j | 0 <= i < j < |dirs| && Kept(idMap, read, dirs[i]) && Kept(idMap, read, dirs[j]) ::
      TableGet(idMap, dirs[i]).value != TableGet(idMap, dirs[j]).value
  }

  /** When the kept directories lead to different projects, the seed data holds, in
      directory order, one entry per kept directory and nothing else: unknown
      directories and unreadable or empty pages are skipped, and each project gets
      exactly one `reference` submission labelled `<label> - Reference`. */
  lemma {:induction false} OneEntryPerKeptProject(idMap: seq<(string, string)>, labels: seq<(string, string)>, read: string -> Option<string>, dirs: seq<string>)
    requires DistinctProjects(idMap, read, dirs)
    ensures SeedDataOf(idMap, labels, read, dirs) == MapSeq(Filter(dirs, (d: string) => Kept(idMap, read, d)), EntryFor(idMap, labels, read))
    decreases |dirs|
  {
    if dirs != [] {
      var kept := (d: string) => Kept(idMap, read, d);
      var entry := EntryFor(idMap, labels, read);
      var front, x := dirs[..|dirs| - 1], dirs[|dirs| - 1];
      assert DistinctProjects(idMap, read, front) by {
        forall i, j | 0 <= i < j < |front| ensures front[i] == dirs[i] && front[j] == dirs[j] { }
      }
      OneEntryPerKeptProject(idMap, labels, read, front);
      if kept(x) {
        NewProjectIsNewKey(idMap, labels, read, dirs);
        KeptStep(idMap, labels, read, dirs);
      } else {
        assert dirs == front + [x];
        FilterAppend(front, [x], kept);
        assert Filter([x], kept) == [];
      }
    }
  }

  /** The step for a kept last directory whose project is new: its entry is appended. */
  lemma KeptStep(idMap: seq<(string, string)>, labels: seq<(string, string)>, read: string -> Option<string>, dirs: seq<string>)
    requires dirs != [] && Kept(idMap, read, dirs[|dirs| - 1])
    requires var front := dirs[..|dirs| - 1];
      SeedDataOf(idMap, labels, read, front) == MapSeq(Filter(front, (d: string) => Kept(idMap, read, d)), EntryFor(idMap, labels, read))
    requires KeyIndex(SeedDataOf(idMap, labels, read, dirs[..|dirs| - 1]), TableGet(idMap, dirs[|dirs| - 1]).value).None?
    ensures SeedDataOf(idMap, labels, read, dirs) == MapSeq(Filter(dirs, (d: string) => Kept(idMap, read, d)), EntryFor(idMap, labels, read))
  {
    var kept := (d: string) => Kept(idMap, read, d);
    var front, x := dirs[..|dirs| - 1], dirs[|dirs| - 1];
    FilterSnoc(dirs, kept);
    MapAppend(Filter(front, kept), [x], EntryFor(idMap, labels, read));
  }

  lemma FilterSnoc<T>(s: seq<T>, p: T -> bool)
    requires s != [] && p(s[|s| - 1])
    ensures Filter(s, p) == Filter(s[..|s| - 1], p) + [s[|s| - 1]]
  {
    var front, x := s[..|s| - 1], s[|s| - 1];
    assert s == front + [x];
    FilterAppend(front, [x], p);
    assert Filter([x], p) == [x];
  }

  /** The last directory's project is not yet a key when it is reached. */
  lemma NewProjectIsNewKey(idMap: seq<(string, string)>, labels: seq<(string, string)>, read: string -> Option<string>, dirs: seq<string>)
    requires dirs != [] && DistinctProjects(idMap, read, dirs) && Kept(idMap, read, dirs[|dirs| - 1])
    requires var front := dirs[..|dirs| - 1];
      SeedDataOf(idMap, labels, read, front) == MapSeq(Filter(front, (d: string) => Kept(idMap, read, d)), EntryFor(idMap, labels, read))
    ensures KeyIndex(SeedDataOf(idMap, labels, read, dirs[..|dirs| - 1]), TableGet(idMap, dirs[|dirs| - 1]).value).None?
  {
    var front, x := dirs[..|dirs| - 1], dirs[|dirs| - 1];
    var kept := (d: string) => Kept(idMap, read, d);
    var data := SeedDataOf(idMap, labels, read, front);
    var filtered := Filter(front, kept);
    forall k | 0 <= k < |data| ensures data[k].0 != TableGet(idMap, x).value {
      var d := filtered[k];
      assert d in front && kept(d);
      var j :| 0 <= j < |front| && front[j] == d;
      assert dirs[j] == d;
    }
  }

  /** With the script's own tables, distinct directory names always lead to different
      projects, and each kept one gets the label of its project. */
  lemma ScriptTablesKeepOnePerDirectory(read: string -> Option<string>, dirs: seq<string>)
    requires forall i, j | 0 <= i < j < |dirs| :: dirs[i] != dirs[j]
    ensures DistinctProjects(ProjectIdMap, read, dirs)
  {
    forall i, j | 0 <= i < j < |dirs| && Kept(ProjectIdMap, read, dirs[i]) && Kept(ProjectIdMap, read, dirs[j])
      ensures TableGet(ProjectIdMap, dirs[i]).value != TableGet(ProjectIdMap, dirs[j]).value
    {
      ProjectIdMapIsIdentity(dirs[i]);
      ProjectIdMapIsIdentity(dirs[j]);
    }
  }
}
