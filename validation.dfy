/**
 * The request validators of server/utils/validation.ts. Each either passes, returning
 * nothing, or throws an HTTP error with status code 400 and a fixed message.
 */
module Validation {
  import opened Wrappers
  import opened Strings
  import opened Seqs
  import opened Js

  /** What `createError({statusCode, statusMessage})` throws. */
  datatype HttpError = HttpError(statusCode: int, statusMessage: string)

  const BadRequest := 400

  /** `!data[field] || (typeof data[field] === 'string' && !data[field].trim())`. */
  predicate Missing(data: seq<Field>, field: string)
  {
    var v := Lookup(data, field);
    !Truthy(v) || (v.Str? && Trim(v.s) == "")
  }

  function MissingFields(data: seq<Field>, fields: seq<string>): seq<string>
  {
    Filter(fields, (f: string) => Missing(data, f))
  }

  function ValidateRequired(data: seq<Field>, fields: seq<string>): Outcome<HttpError>
  {
    var missing := MissingFields(data, fields);
    if |missing| > 0 then
      Fail(HttpError(BadRequest, "Missing required fields: " + Join(missing, ", ")))
    else
      Pass
  }

  /** A field is missing when it is absent, falsy, or a string of whitespace only. */
  lemma MissingMeans(data: seq<Field>, field: string)
    ensures Missing(data, field) <==>
      var v := Lookup(data, field);
      v.Undefined? || v.Null? || v == Bool(false) || v == Num(0) || v.NaN? || v == BigInt(0)
      || (v.Str? && AllWhitespace(v.s))
  {
  }

  /** `validateRequired` passes exactly when no listed field is missing; otherwise it
      throws 400 naming every missing field, in the order listed, and no other. */
  lemma ValidateRequiredIff(data: seq<Field>, fields: seq<string>)
    ensures ValidateRequired(data, fields).Pass? <==> forall i | 0 <= i < |fields| :: !Missing(data, fields[i])
    ensures ValidateRequired(data, fields).Fail? ==>
      var missing := MissingFields(data, fields);
      ValidateRequired(data, fields).error == HttpError(400, "Missing required fields: " + Join(missing, ", "))
      && (forall f :: f in missing <==> f in fields && Missing(data, f))
  {
    var missing := MissingFields(data, fields);
    if exists i | 0 <= i < |fields| :: Missing(data, fields[i]) {
      var i :| 0 <= i < |fields| && Missing(data, fields[i]);
      assert fields[i] in missing;
    } else {
      FilterNone(fields, (f: string) => Missing(data, f));
    }
  }

  /** The missing fields keep the order in which they were listed. */
  lemma {:induction false} MissingFieldsInOrder(data: seq<Field>, a: seq<string>, b: seq<string>)
    ensures MissingFields(data, a + b) == MissingFields(data, a) + MissingFields(data, b)
  {
    FilterAppend(a, b, (f: string) => Missing(data, f));
  }

  /** `/^[a-z0-9-]+$/`: lower-case ASCII letters, digits and hyphens. */
  predicate IsProjectIdChar(c: char)
  {
    'a' <= c <= 'z' || '0' <= c <= '9' || c == '-'
  }

  /** The regular expression, matched one character at a time. */
  predicate MatchesProjectIdPattern(id: string)
  {
    id != [] && AllProjectIdChars(id)
  }

  predicate AllProjectIdChars(s: string)
  {
    s == [] || (IsProjectIdChar(s[0]) && AllProjectIdChars(s[1..]))
  }

  function ValidateProjectId(id: string): Outcome<HttpError>
  {
    if !MatchesProjectIdPattern(id) then
      Fail(HttpError(BadRequest, "Project ID must contain only lowercase letters, numbers, and hyphens"))
    else
      Pass
  }

  lemma {:induction false} AllProjectIdCharsMeans(s: string)
    ensures AllProjectIdChars(s) <==> forall i | 0 <= i < |s| :: IsProjectIdChar(s[i])
  {
    if s != [] {
      AllProjectIdCharsMeans(s[1..]);
      assert forall i | 1 <= i < |s| :: s[1..][i - 1] == s[i];
    }
  }

  /** A project id passes exactly when it is non-empty and made of lower-case letters,
      digits and hyphens; otherwise 400. */
  lemma ValidateProjectIdIff(id: string)
    ensures ValidateProjectId(id).Pass? <==> id != [] && forall i | 0 <= i < |id| :: IsProjectIdChar(id[i])
    ensures ValidateProjectId(id).Fail? ==> ValidateProjectId(id).error.statusCode == 400
  {
    AllProjectIdCharsMeans(id);
  }

  const Statuses: seq<string> := ["pending", "approved", "rejected"]
  const Difficulties: seq<string> := ["small", "medium", "advanced"]

  function ValidateStatus(status: string): (r: Outcome<HttpError>)
    ensures r.Pass? <==> status == "pending" || status == "approved" || status == "rejected"
    ensures r.Fail? ==> r.error == HttpError(400, "Invalid status. Must be one of: pending, approved, rejected")
  {
    if status !in Statuses then
      Fail(HttpError(BadRequest, "Invalid status. Must be one of: pending, approved, rejected"))
    else
      Pass
  }

  function ValidateDifficulty(difficulty: string): (r: Outcome<HttpError>)
    ensures r.Pass? <==> difficulty == "small" || difficulty == "medium" || difficulty == "advanced"
    ensures r.Fail? ==> r.error == HttpError(400, "Invalid difficulty. Must be one of: small, medium, advanced")
  {
    if difficulty !in Difficulties then
      Fail(HttpError(BadRequest, "Invalid difficulty. Must be one of: small, medium, advanced"))
    else
      Pass
  }

  function ValidateFilePath(filePath: string): Outcome<HttpError>
  {
    if !EndsWith(filePath, "/index.html") then
      Fail(HttpError(BadRequest, "File path must end with /index.html"))
    else
      Pass
  }

  /** The path of the `index.html` file inside `dir`. */
  function IndexFileIn(dir: string): string
  {
    dir + "/index.html"
  }

  /** A path passes exactly when it is the `index.html` of some directory; every other
      path is refused with the one 400. */
  lemma ValidateFilePathIff(filePath: string)
    ensures ValidateFilePath(filePath).Pass? <==> exists dir :: filePath == IndexFileIn(dir)
    ensures !ValidateFilePath(filePath).Pass? ==>
      ValidateFilePath(filePath) == Fail(HttpError(400, "File path must end with /index.html"))
  {
    if ValidateFilePath(filePath).Pass? {
      var dir := filePath[..|filePath| - 11];
      assert filePath == dir + filePath[|filePath| - 11..];
      assert filePath == IndexFileIn(dir);
    }
    if exists dir :: filePath == IndexFileIn(dir) {
      var dir :| filePath == IndexFileIn(dir);
      assert filePath[|filePath| - 11..] == "/index.html";
    }
  }

  /** Any file named `index.html` inside a directory passes; the bare name, which has no
      slash before it, is refused with 400. */
  lemma ValidateFilePathCases(dir: string)
    ensures ValidateFilePath(dir + "/index.html").Pass?
    ensures ValidateFilePath("index.html") == Fail(HttpError(400, "File path must end with /index.html"))
  {
    var p := dir + "/index.html";
    assert p[|p| - 11..] == "/index.html";
  }
}
