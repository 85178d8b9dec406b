/**
 * The SVG placeholder thumbnails of server/utils/thumbnail.ts: XML escaping, the colour
 * and label table per project, and the placeholder's `data:` URL. Base64 encoding is a
 * function parameter.
 */
module Thumbnail {
  import opened Wrappers
  import opened Strings
  import Validation

  function EscapeXml(text: string): string
  {
    ReplaceAll(ReplaceAll(ReplaceAll(ReplaceAll(ReplaceAll(text,
      '&', "&amp;"), '<', "&lt;"), '>', "&gt;"), '"', "&quot;"), '\'', "&apos;")
  }

  predicate IsSpecial(c: char)
  {
    c == '&' || c == '<' || c == '>' || c == '"' || c == '\''
  }

  /** The entity for one character, or the character itself. */
  function EscapeChar(c: char): string
  {
    match c
    case '&' => "&amp;"
    case '<' => "&lt;"
    case '>' => "&gt;"
    case '"' => "&quot;"
    case '\'' => "&apos;"
    case _ => [c]
  }

  /** Every character replaced by its entity, independently of its neighbours. */
  function Escaped(s: string): string
  {
    if s == [] then [] else EscapeChar(s[0]) + Escaped(s[1..])
  }

  lemma EscapeXmlAppend(a: string, b: string)
    ensures EscapeXml(a + b) == EscapeXml(a) + EscapeXml(b)
  {
    var a1, b1 := ReplaceAll(a, '&', "&amp;"), ReplaceAll(b, '&', "&amp;");
    ReplaceAllAppend(a, b, '&', "&amp;");
    var a2, b2 := ReplaceAll(a1, '<', "&lt;"), ReplaceAll(b1, '<', "&lt;");
    ReplaceAllAppend(a1, b1, '<', "&lt;");
    var a3, b3 := ReplaceAll(a2, '>', "&gt;"), ReplaceAll(b2, '>', "&gt;");
    ReplaceAllAppend(a2, b2, '>', "&gt;");
    var a4, b4 := ReplaceAll(a3, '"', "&quot;"), ReplaceAll(b3, '"', "&quot;");
    ReplaceAllAppend(a3, b3, '"', "&quot;");
    ReplaceAllAppend(a4, b4, '\'', "&apos;");
  }

  lemma ReplaceOne(x: char, c: char, rep: string)
    ensures ReplaceAll([x], c, rep) == if x == c then rep else [x]
  {
    assert [x][1..] == [];
  }

  lemma MarkupFreeUnchanged(e: string, c: char, rep: string)
    requires forall k | 0 <= k < |e| :: !IsMarkup(e[k])
    requires IsMarkup(c)
    ensures ReplaceAll(e, c, rep) == e
  {
    ReplaceAbsent(e, c, rep);
  }

  /** Replacing `&` first means no entity written by a later step is escaped again. */
  lemma EscapeXmlChar(x: char)
    ensures EscapeXml([x]) == EscapeChar(x)
  {
    var e := EscapeChar(x);
    EscapeCharShape(x);
    ReplaceOne(x, '&', "&amp;");
    if x == '&' {
      MarkupFreeUnchanged(e, '<', "&lt;");
      MarkupFreeUnchanged(e, '>', "&gt;");
      MarkupFreeUnchanged(e, '"', "&quot;");
      MarkupFreeUnchanged(e, '\'', "&apos;");
      return;
    }
    ReplaceOne(x, '<', "&lt;");
    if x == '<' {
      MarkupFreeUnchanged(e, '>', "&gt;");
      MarkupFreeUnchanged(e, '"', "&quot;");
      MarkupFreeUnchanged(e, '\'', "&apos;");
      return;
    }
    ReplaceOne(x, '>', "&gt;");
    if x == '>' {
      MarkupFreeUnchanged(e, '"', "&quot;");
      MarkupFreeUnchanged(e, '\'', "&apos;");
      return;
    }
    ReplaceOne(x, '"', "&quot;");
    if x == '"' {
      MarkupFreeUnchanged(e, '\'', "&apos;");
      return;
    }
    ReplaceOne(x, '\'', "&apos;");
  }

  /** The chain of five replacements escapes each character on its own. */
  lemma {:induction false} EscapeXmlPerChar(s: string)
    ensures EscapeXml(s) == Escaped(s)
  {
    if s == [] {
      assert EscapeXml(s) == [];
    } else {
      assert s == [s[0]] + s[1..];
      EscapeXmlAppend([s[0]], s[1..]);
      EscapeXmlChar(s[0]);
      EscapeXmlPerChar(s[1..]);
    }
  }

  /** `<`, `>`, `"` and `'`, which could end a text node or an attribute. */
  predicate IsMarkup(c: char)
  {
    c == '<' || c == '>' || c == '"' || c == '\''
  }

  /** `&` followed by one of the five entity names. */
  predicate EntityAt(t: string, i: int)
    requires 0 <= i <= |t|
  {
    var rest := t[i..];
    StartsWith(rest, "&amp;") || StartsWith(rest, "&lt;") || StartsWith(rest, "&gt;")
    || StartsWith(rest, "&quot;") || StartsWith(rest, "&apos;")
  }

  /** No markup character, and each `&` begins an entity. */
  predicate Inert(t: string)
  {
    forall i | 0 <= i < |t| :: !IsMarkup(t[i]) && (t[i] == '&' ==> EntityAt(t, i))
  }

  lemma EscapeCharShape(x: char)
    ensures var e := EscapeChar(x);
      e != [] && Inert(e) && (IsSpecial(x) <==> e != [x])
  {
  }

  lemma EntityExtends(e: string, rest: string, i: int)
    requires 0 <= i <= |e| && EntityAt(e, i)
    ensures EntityAt(e + rest, i)
  {
    assert (e + rest)[i..] == e[i..] + rest;
    assert forall n | 0 <= n <= |e| - i :: (e[i..] + rest)[..n] == e[i..][..n];
  }

  lemma EntityShift(e: string, rest: string, i: int)
    requires |e| <= i <= |e| + |rest|
    ensures EntityAt(e + rest, i) <==> EntityAt(rest, i - |e|)
  {
    assert (e + rest)[i..] == rest[i - |e|..];
  }

  /** Inert text stays inert when more inert text follows. */
  lemma InertAppend(a: string, b: string)
    requires Inert(a) && Inert(b)
    ensures Inert(a + b)
  {
    var t := a + b;
    forall i | 0 <= i < |t| ensures !IsMarkup(t[i]) && (t[i] == '&' ==> EntityAt(t, i)) {
      if i < |a| {
        assert t[i] == a[i];
        if t[i] == '&' {
          EntityExtends(a, b, i);
        }
      } else {
        assert t[i] == b[i - |a|];
        EntityShift(a, b, i);
      }
    }
  }

  /** Escaped text holds no markup character, and each `&` in it begins an entity. */
  lemma {:induction false} EscapedIsInert(s: string)
    ensures Inert(Escaped(s))
  {
    if s != [] {
      EscapedIsInert(s[1..]);
      EscapeCharShape(s[0]);
      InertAppend(EscapeChar(s[0]), Escaped(s[1..]));
    }
  }

  /** Text free of the five special characters passes through unchanged. */
  lemma {:induction false} PlainTextUnchanged(s: string)
    requires forall i | 0 <= i < |s| :: !IsSpecial(s[i])
    ensures EscapeXml(s) == s
  {
    EscapeXmlPerChar(s);
    EscapedPlain(s);
  }

  lemma {:induction false} EscapedPlain(s: string)
    requires forall i | 0 <= i < |s| :: !IsSpecial(s[i])
    ensures Escaped(s) == s
  {
    if s != [] {
      EscapeCharShape(s[0]);
      EscapedPlain(s[1..]);
      assert s == [s[0]] + s[1..];
    }
  }

  /** Reads the five entities back, left to right; any other character stands for itself. */
  function UnescapeXml(t: string): string
    decreases |t|
  {
    if t == [] then []
    else if StartsWith(t, "&amp;") then "&" + UnescapeXml(t[5..])
    else if StartsWith(t, "&lt;") then "<" + UnescapeXml(t[4..])
    else if StartsWith(t, "&gt;") then ">" + UnescapeXml(t[4..])
    else if StartsWith(t, "&quot;") then "\"" + UnescapeXml(t[6..])
    else if StartsWith(t, "&apos;") then "'" + UnescapeXml(t[6..])
    else [t[0]] + UnescapeXml(t[1..])
  }

  /** Decoding the entities recovers the original text. */
  lemma {:induction false} UnescapeEscapeXml(s: string)
    ensures UnescapeXml(EscapeXml(s)) == s
  {
    EscapeXmlPerChar(s);
    UnescapeEscaped(s);
  }

  lemma {:induction false} UnescapeEscaped(s: string)
    ensures UnescapeXml(Escaped(s)) == s
  {
    if s != [] {
      var e, rest := EscapeChar(s[0]), Escaped(s[1..]);
      UnescapeEscaped(s[1..]);
      UnescapeOne(s[0], rest);
      assert s == [s[0]] + s[1..];
    }
  }

  /** Decoding reads an entity at the front back as its character. */
  lemma UnescapeEntity(e: string, c: char, rest: string)
    requires e == EscapeChar(c) && IsSpecial(c)
    ensures UnescapeXml(e + rest) == [c] + UnescapeXml(rest)
  {
    var t := e + rest;
    assert t[..|e|] == e && t[|e|..] == rest;
    assert t[1] == e[1];
    if c == '>' || c == '"' || c == '\'' {
      assert !StartsWith(t, "&amp;") by { assert t[1] != 'a' || t[2] != 'm'; }
    }
    if c == '\'' {
      assert !StartsWith(t, "&quot;") by { assert t[1] != 'q'; }
    }
  }

  /** Decoding reads a plain character at the front back as itself. */
  lemma UnescapePlain(x: char, rest: string)
    requires !IsSpecial(x)
    ensures UnescapeXml([x] + rest) == [x] + UnescapeXml(rest)
  {
    var t := [x] + rest;
    assert t[0] == x && t[1..] == rest;
  }

  lemma UnescapeOne(x: char, rest: string)
    ensures UnescapeXml(EscapeChar(x) + rest) == [x] + UnescapeXml(rest)
  {
    if IsSpecial(x) {
      UnescapeEntity(EscapeChar(x), x, rest);
    } else {
      UnescapePlain(x, rest);
    }
  }

  /** A project's gradient colours and label. */
  datatype ProjectConfig = ProjectConfig(color1: string, color2: string, projectLabel: string)

  /** The table of `getProjectConfig`, in the order written. */
  const ConfigTable: seq<(string, ProjectConfig)> := [
    ("traffic-simulation", ProjectConfig("#ef4444", "#f59e0b", "Traffic Simulation")),
    ("particle-gravity", ProjectConfig("#3b82f6", "#8b5cf6", "Particle Physics")),
    ("wave-patterns", ProjectConfig("#06b6d4", "#3b82f6", "Wave Patterns")),
    ("conways-game-of-life", ProjectConfig("#10b981", "#059669", "Conway's Game of Life")),
    ("pathfinding-visualizer", ProjectConfig("#6366f1", "#8b5cf6", "Pathfinding"))
  ]

  /** The table's own entry for `key`, if it has one. */
  function FindConfig(table: seq<(string, ProjectConfig)>, key: string): (r: Option<ProjectConfig>)
    ensures r.Some? ==> exists i | 0 <= i < |table| :: table[i] == (key, r.value)
    ensures r.None? ==> forall i | 0 <= i < |table| :: table[i].0 != key
  {
    if table == [] then None
    else if table[0].0 == key then Some(table[0].1)
    else FindConfig(table[1..], key)
  }

  const DefaultConfig := ProjectConfig("#6366f1", "#8b5cf6", "Project")

  /** `projectId || ''`: the key looked up. */
  function ConfigKey(projectId: Option<string>): string
  {
    if projectId.Some? then projectId.value else ""
  }

  /** The names every object literal inherits from `Object.prototype`; reading one
      from the table yields a function or the prototype, not a configuration. */
  const InheritedNames: set<string> := {
    "constructor", "__defineGetter__", "__defineSetter__", "hasOwnProperty",
    "__lookupGetter__", "__lookupSetter__", "isPrototypeOf", "propertyIsEnumerable",
    "toString", "valueOf", "__proto__", "toLocaleString"
  }

  /** What `configs[projectId || ''] || default` reads as written: an own entry, an
      inherited member (truthy, so it wins over the default), or the default. */
  datatype ConfigRead = OwnEntry(config: ProjectConfig) | InheritedMember | DefaultEntry

  function ReadConfigAsWritten(projectId: Option<string>): ConfigRead
  {
    var key := ConfigKey(projectId);
    var own := FindConfig(ConfigTable, key);
    if own.Some? then OwnEntry(own.value)
    else if key in InheritedNames then InheritedMember
    else DefaultEntry
  }

  /** `getProjectConfig` reading own entries only: the table's triple for a listed id,
      the default for any other id or none. */
  function GetProjectConfig(projectId: Option<string>): (c: ProjectConfig)
    ensures c.projectLabel != ""
  {
    var key := ConfigKey(projectId);
    FindConfig(ConfigTable, key).GetOr(DefaultConfig)
  }

  /** The two reads agree except on inherited names. */
  lemma ConfigReadsAgree(projectId: Option<string>)
    ensures ConfigKey(projectId) !in InheritedNames ==>
      match ReadConfigAsWritten(projectId)
      case OwnEntry(c) => c == GetProjectConfig(projectId)
      case DefaultEntry => GetProjectConfig(projectId) == DefaultConfig
      case InheritedMember => false
  {
    TableNotInherited(ConfigKey(projectId));
  }

  /** No key of the table is an inherited name. */
  lemma TableNotInherited(key: string)
    ensures FindConfig(ConfigTable, key).Some? ==> key !in InheritedNames
  {
    var r := FindConfig(ConfigTable, key);
    if r.Some? {
      var i :| 0 <= i < |ConfigTable| && ConfigTable[i] == (key, r.value);
      TableKeysNotInherited(i);
    }
  }

  lemma TableKeysNotInherited(i: int)
    requires 0 <= i < |ConfigTable|
    ensures ConfigTable[i].0 !in InheritedNames
  {
  }

  /** The known ids and the fallback. */
  lemma ProjectConfigTable(id: string)
    ensures GetProjectConfig(Some("conways-game-of-life")).projectLabel == "Conway's Game of Life"
    ensures GetProjectConfig(Some("traffic-simulation")) == ProjectConfig("#ef4444", "#f59e0b", "Traffic Simulation")
    ensures FindConfig(ConfigTable, id).None? ==> GetProjectConfig(Some(id)) == ProjectConfig("#6366f1", "#8b5cf6", "Project")
    ensures GetProjectConfig(None) == DefaultConfig && GetProjectConfig(Some("")) == DefaultConfig
  {
  }


  /** The text of the SVG template around its interpolations: before the first colour,
      between the colours, before the main label, after it, around the project line,
      and after everything. */
  datatype SvgTemplate = SvgTemplate(
    head: string, betweenColors: string, beforeLabel: string, afterLabel: string,
    projectLineHead: string, projectLineTail: string, tail: string)

  /** The template of `generatePlaceholderThumbnail`, word for word. */
  const PlaceholderTemplate := SvgTemplate(
    "\n    <svg width=\"800\" height=\"600\" xmlns=\"http://www.w3.org/2000/svg\">\n      <defs>\n        <linearGradient id=\"grad\" x1=\"0%\" y1=\"0%\" x2=\"100%\" y2=\"100%\">\n          <stop offset=\"0%\" style=\"stop-color:",
    ";stop-opacity:1\" />\n          <stop offset=\"100%\" style=\"stop-color:",
    ";stop-opacity:1\" />\n        </linearGradient>\n        <pattern id=\"grid\" width=\"40\" height=\"40\" patternUnits=\"userSpaceOnUse\">\n          <path d=\"M 40 0 L 0 0 0 40\" fill=\"none\" stroke=\"rgba(255,255,255,0.1)\" stroke-width=\"1\"/>\n        </pattern>\n      </defs>\n      <rect width=\"800\" height=\"600\" fill=\"url(#grad)\"/>\n      <rect width=\"800\" height=\"600\" fill=\"url(#grid)\"/>\n      \n      <!-- Decorative circles -->\n      <circle cx=\"150\" cy=\"150\" r=\"80\" fill=\"rgba(255,255,255,0.1)\"/>\n      <circle cx=\"650\" cy=\"450\" r=\"100\" fill=\"rgba(255,255,255,0.08)\"/>\n      \n      <!-- Main label -->\n      <text x=\"400\" y=\"280\" font-family=\"system-ui, -apple-system, sans-serif\" font-size=\"36\" font-weight=\"bold\" fill=\"white\" text-anchor=\"middle\" dominant-baseline=\"middle\">\n        ",
    "\n      </text>\n      \n      <!-- Project type indicator -->\n      ",
    "\n      <text x=\"400\" y=\"330\" font-family=\"system-ui, -apple-system, sans-serif\" font-size=\"16\" fill=\"rgba(255,255,255,0.8)\" text-anchor=\"middle\" dominant-baseline=\"middle\">\n        ",
    "\n      </text>\n      ",
    "\n      \n      <!-- Preview indicator -->\n      <text x=\"400\" y=\"380\" font-family=\"system-ui, -apple-system, sans-serif\" font-size=\"14\" fill=\"rgba(255,255,255,0.6)\" text-anchor=\"middle\" dominant-baseline=\"middle\">\n        Click to view full implementation\n      </text>\n    </svg>\n  ")

  const DataUrlPrefix := "data:image/svg+xml;base64,"

  /** `projectId ? … : ''`. */
  predicate HasProjectId(projectId: Option<string>)
  {
    projectId.Some? && projectId.value != ""
  }

  /** The text before the optional project line: gradient colours and escaped label. */
  function Common(t: SvgTemplate, config: ProjectConfig, labelText: string): string
  {
    t.head + config.color1 + t.betweenColors + config.color2 + t.beforeLabel + EscapeXml(labelText) + t.afterLabel
  }

  function ProjectLine(t: SvgTemplate, config: ProjectConfig): string
  {
    t.projectLineHead + EscapeXml(config.projectLabel) + t.projectLineTail
  }

  /** The template filled in for a label and an optional project id. */
  function Svg(t: SvgTemplate, labelText: string, projectId: Option<string>): string
  {
    var config := GetProjectConfig(projectId);
    Common(t, config, labelText) + (if HasProjectId(projectId) then ProjectLine(t, config) else "") + t.tail
  }

  /** `generatePlaceholderThumbnail` over a template: the trimmed SVG, base64-encoded,
      behind the `data:` prefix. */
  function Placeholder(t: SvgTemplate, labelText: string, projectId: Option<string>, base64: string -> string): (url: string)
    ensures StartsWith(url, DataUrlPrefix)
  {
    var r := DataUrlPrefix + base64(Trim(Svg(t, labelText, projectId)));
    assert r[..|DataUrlPrefix|] == DataUrlPrefix;
    r
  }

  function GeneratePlaceholderThumbnail(labelText: string, projectId: Option<string>, base64: string -> string): string
  {
    Placeholder(PlaceholderTemplate, labelText, projectId, base64)
  }

  /** A non-empty project id adds the project line, with its table label, between the
      main label and the preview text; nothing else in the text depends on it beyond the
      colours. */
  lemma ProjectLineOnlyWithId(t: SvgTemplate, labelText: string, id: string)
    requires id != ""
    ensures var config := GetProjectConfig(Some(id));
      Svg(t, labelText, Some(id)) == Common(t, config, labelText) + ProjectLine(t, config) + t.tail
  {
  }

  /** Without a project id, or with an empty one, the default colours apply and there is
      no project line. */
  lemma NoProjectLineWithoutId(t: SvgTemplate, labelText: string)
    ensures Svg(t, labelText, None) == Common(t, DefaultConfig, labelText) + t.tail
    ensures Svg(t, labelText, Some("")) == Svg(t, labelText, None)
  {
    assert FindConfig(ConfigTable, "").None?;
  }

  /** The label inside the text element is escaped: it holds no markup character, and
      every `&` in it begins an entity, so it cannot close the element. */
  lemma {:induction false} LabelCannotBreakOut(labelText: string)
    ensures Inert(EscapeXml(labelText))
  {
    EscapeXmlPerChar(labelText);
    EscapedIsInert(labelText);
  }

  /** `generateThumbnail` over a template: always the placeholder (never `null`),
      labelled `'Submission'` when no label, or an empty one, is given. */
  function GenerateThumbnailWith(t: SvgTemplate, htmlContent: string, labelText: Option<string>, projectId: Option<string>, base64: string -> string): string
  {
    Placeholder(t, if labelText.Some? && labelText.value != "" then labelText.value else "Submission", projectId, base64)
  }

  function GenerateThumbnail(htmlContent: string, labelText: Option<string>, projectId: Option<string>, base64: string -> string): string
  {
    GenerateThumbnailWith(PlaceholderTemplate, htmlContent, labelText, projectId, base64)
  }

  /** With no label, or an empty one, the placeholder is labelled `'Submission'`. */
  lemma GenerateThumbnailDefaultLabel(t: SvgTemplate, htmlContent: string, projectId: Option<string>, base64: string -> string)
    ensures GenerateThumbnailWith(t, htmlContent, None, projectId, base64) == Placeholder(t, "Submission", projectId, base64)
  {
  }

  lemma GenerateThumbnailEmptyLabel(t: SvgTemplate, htmlContent: string, projectId: Option<string>, base64: string -> string)
    ensures GenerateThumbnailWith(t, htmlContent, Some(""), projectId, base64) == Placeholder(t, "Submission", projectId, base64)
  {
  }

  /** A non-empty label is used as given. */
  lemma GenerateThumbnailGivenLabel(t: SvgTemplate, htmlContent: string, labelText: string, projectId: Option<string>, base64: string -> string)
    requires labelText != ""
    ensures GenerateThumbnailWith(t, htmlContent, Some(labelText), projectId, base64) == Placeholder(t, labelText, projectId, base64)
  {
  }

  /** The HTML content is never read. */
  lemma GenerateThumbnailIgnoresHtml(t: SvgTemplate, htmlContent: string, otherHtml: string, labelText: Option<string>, projectId: Option<string>, base64: string -> string)
    ensures GenerateThumbnailWith(t, htmlContent, labelText, projectId, base64) == GenerateThumbnailWith(t, otherHtml, labelText, projectId, base64)
  {
  }

  /** The placeholder as written: reading an inherited member gives an object whose
      `label` is `undefined`, and `escapeXml(undefined)` throws a `TypeError` whenever
      the project line is rendered. */
  function PlaceholderAsWritten(t: SvgTemplate, labelText: string, projectId: Option<string>, base64: string -> string): Result<string, string>
  {
    if ReadConfigAsWritten(projectId).InheritedMember? && HasProjectId(projectId) then
      Failure("TypeError: Cannot read properties of undefined (reading 'replace')")
    else
      Success(Placeholder(t, labelText, projectId, base64))
  }

  /** `constructor` is a well-formed project id: it passes `validateProjectId`. */
  lemma ConstructorIdValid()
    ensures Validation.ValidateProjectId("constructor").Pass?
  {
  }

  /** Yet the placeholder for `constructor` throws as written. */
  lemma ConstructorIdThrows(t: SvgTemplate, labelText: string, base64: string -> string)
    ensures PlaceholderAsWritten(t, labelText, Some("constructor"), base64).Failure?
  {
    TableNotInherited("constructor");
  }

  /** Reading own entries only, an inherited name gets the default configuration, so
      every id gets a placeholder; where the code as written succeeds, the two agree. */
  lemma PlaceholderTotal(t: SvgTemplate, labelText: string, id: string, base64: string -> string)
    ensures id in InheritedNames ==> GetProjectConfig(Some(id)) == DefaultConfig
    ensures PlaceholderAsWritten(t, labelText, Some(id), base64).Success? ==>
      PlaceholderAsWritten(t, labelText, Some(id), base64).value == Placeholder(t, labelText, Some(id), base64)
  {
    TableNotInherited(id);
  }
}
