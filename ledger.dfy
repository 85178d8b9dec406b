/**
 * The hash-chained ledger (baseline/ledger/ledgerStore.js): a JSON-lines file in which
 * every entry records the hash of the entry before it (`prev_entry_hash`) and its own
 * hash (`entry_hash`), the SHA-256 of the canonical text of the entry without
 * `entry_hash`.
 *
 * SHA-256 is the parameter `sha`, and writing an entry as a JSON line and parsing it back
 * gives the same entry. The file is the list of the pieces its content splits into at
 * line feeds.
 */
module Ledger {
  import opened Wrappers
  import opened Js
  import opened StableStringify
  import opened Strings

  /** One piece of the file between line feeds: empty, one JSON object, or text
      `JSON.parse` refuses. */
  datatype Segment = Blank | Record(entry: seq<Field>) | Malformed

  /** The ledger file: unreadable with an error code (`ENOENT` when it does not exist), or
      its content. */
  datatype LedgerFile = Unreadable(code: string) | Present(segments: seq<Segment>)

  datatype LedgerError =
    | ReadFailed(code: string)
    | ParseFailed
    | HashFailed(message: string)
    | WriteFailed(message: string)

  /** `{ok: true}` or `{ok: false, error: {index, message}}`, the message given by `Message`. */
  datatype Verdict = Ok | NotOk(index: nat, mismatch: Mismatch)

  /** Which link of the chain is broken. */
  datatype Mismatch = PrevMismatch | HashMismatch

  function Message(m: Mismatch): string
  {
    match m
    case PrevMismatch => "prev_entry_hash mismatch"
    case HashMismatch => "entry_hash mismatch"
  }

  /** A file that does not exist, or whose content ends with a line feed. */
  predicate WellFormed(file: LedgerFile)
  {
    match file
    case Unreadable(code) => code == "ENOENT"
    case Present(segments) => |segments| >= 1 && segments[|segments| - 1] == Blank
  }

  // ----- Reading -----

  /** `lines.filter(Boolean).map(JSON.parse)`: the records in file order, or the parse error. */
  function ParseSegments(segments: seq<Segment>): (r: Result<seq<seq<Field>>, LedgerError>)
    ensures r.Success? <==> Malformed !in segments
    ensures r.Failure? ==> r.error == ParseFailed
    ensures r.Success? ==> |r.value| <= |segments|
  {
    if segments == [] then Success([])
    else
      var rest := ParseSegments(segments[1..]);
      match segments[0]
      case Blank => rest
      case Malformed => Failure(ParseFailed)
      case Record(e) => if rest.Success? then Success([e] + rest.value) else rest
  }

  /** What `readEntries` returns: no entries for a missing file, the error for an unreadable
      one, otherwise the parsed records. */
  function Entries(file: LedgerFile): (r: Result<seq<seq<Field>>, LedgerError>)
    ensures file == Unreadable("ENOENT") ==> r == Success([])
    ensures file.Unreadable? && file.code != "ENOENT" ==> r == Failure(ReadFailed(file.code))
  {
    match file
    case Unreadable(code) => if code == "ENOENT" then Success([]) else Failure(ReadFailed(code))
    case Present(segments) => ParseSegments(segments)
  }

  // ----- Hashing -----

  /** The largest object identity in a value, so that `TopId` can name a new object. */
  function MaxId(v: JsValue): nat
    decreases v
  {
    match v
    case Array(items) => MaxIdItems(items)
    case Object(id, fields, hook) =>
      var inner := MaxIdFields(fields);
      var fromHook := if hook.Some? then MaxId(hook.value) else 0;
      if id >= inner && id >= fromHook then id else if inner >= fromHook then inner else fromHook
    case _ => 0
  }

  function MaxIdItems(items: seq<JsValue>): nat
    decreases items
  {
    if items == [] then 0
    else
      var h, t := MaxId(items[0]), MaxIdItems(items[1..]);
      if h >= t then h else t
  }

  function MaxIdFields(fields: seq<Field>): nat
    decreases fields
  {
    if fields == [] then 0
    else
      var h, t := MaxId(fields[0].value), MaxIdFields(fields[1..]);
      if h >= t then h else t
  }

  /** The identity of an object literal built from `fields`: a new object, distinct from
      every object it holds. */
  function TopId(fields: seq<Field>): nat
  {
    MaxIdFields(fields) + 1
  }

  /** `stableStringify` of a new object with these properties. */
  function EntryText(fields: seq<Field>): Result<string, string>
  {
    StableStringify.StableStringify(Object(TopId(fields), fields, None))
  }

  /** `computeEntryHash`: the hash of the entry's canonical text; a circular entry throws. */
  function EntryHash(sha: string -> string, fields: seq<Field>): (r: Result<string, LedgerError>)
    ensures r.Success? <==> EntryText(fields).Success?
    ensures r.Success? ==> r.value == sha(EntryText(fields).value)
    ensures r.Failure? ==> r.error == HashFailed(CircularMessage)
  {
    var t := EntryText(fields);
    if t.Success? then Success(sha(t.value)) else Failure(HashFailed(t.error))
  }

  // ----- Writing -----

  /** The `TypeError` `JSON.stringify` throws when it meets a bigint. */
  const BigIntMessage: string := "Do not know how to serialize a BigInt"

  /** `JSON.stringify(v)` meets a bigint: `v` is one, or an object's `toJSON` result or
      the object itself holds one among its properties or array items. `JSON.stringify`
      calls `toJSON` once on each value and not again on what it returns. */
  predicate WritesBigInt(v: JsValue)
    decreases v, 1
  {
    if v.Object? && v.hook.Some? then BigIntInside(v.hook.value) else BigIntInside(v)
  }

  /** A bigint is `v` itself or is met below it, without calling `toJSON` on `v`. */
  predicate BigIntInside(v: JsValue)
    decreases v, 0
  {
    match v
    case BigInt(_) => true
    case Array(items) => ItemsWriteBigInt(items)
    case Object(_, fields, _) => FieldsWriteBigInt(fields)
    case _ => false
  }

  predicate ItemsWriteBigInt(items: seq<JsValue>)
    decreases items
  {
    items != [] && (WritesBigInt(items[0]) || ItemsWriteBigInt(items[1..]))
  }

  predicate FieldsWriteBigInt(fields: seq<Field>)
    decreases fields
  {
    fields != [] && (WritesBigInt(fields[0].value) || FieldsWriteBigInt(fields[1..]))
  }

  /** One property that meets a bigint is enough. */
  lemma {:induction false} FieldWritesBigInt(fields: seq<Field>, f: Field)
    requires f in fields && WritesBigInt(f.value)
    ensures FieldsWriteBigInt(fields)
  {
    if fields[0] != f {
      FieldWritesBigInt(fields[1..], f);
    }
  }

  // ----- Appending -----

  /** The `entry_hash` of the last entry, or `null` for an empty ledger (`prev ? prev.entry_hash : null`). */
  function PrevHash(entries: seq<seq<Field>>): JsValue
  {
    if entries == [] then Null else Lookup(entries[|entries| - 1], "entry_hash")
  }

  /** `{...entry, prev_entry_hash}`. */
  function WithPrev(entry: seq<Field>, prev: JsValue): seq<Field>
  {
    Put(entry, "prev_entry_hash", prev)
  }

  /** The content after `appendFile(path, line + "\n")`: the line is added to the piece after
      the last line feed, which is empty in a well-formed file, and a new empty piece follows. */
  function AppendLine(file: LedgerFile, e: seq<Field>): (r: LedgerFile)
    ensures r.Present?
  {
    match file
    case Unreadable(_) => Present([Record(e), Blank])
    case Present(segments) =>
      if segments == [] then Present([Record(e), Blank])
      else
        var last := if segments[|segments| - 1] == Blank then Record(e) else Malformed;
        Present(segments[..|segments| - 1] + [last, Blank])
  }

  /** What `append(entry)` returns and what the file holds afterwards. */
  datatype AppendOutcome = AppendOutcome(result: Result<seq<Field>, LedgerError>, file: LedgerFile)

  function AppendSpec(file: LedgerFile, sha: string -> string, entry: seq<Field>): (o: AppendOutcome)
    ensures o.result.Failure? ==> o.file == file
    ensures o.result.Success? ==> !WritesBigInt(Object(TopId(o.result.value), o.result.value, None))
  {
    match Entries(file)
    case Failure(e) => AppendOutcome(Failure(e), file)
    case Success(entries) =>
      var withPrev := WithPrev(entry, PrevHash(entries));
      match EntryHash(sha, withPrev)
      case Failure(e) => AppendOutcome(Failure(e), file)
      case Success(h) =>
        var final := Put(withPrev, "entry_hash", Str(h));
        if WritesBigInt(Object(TopId(final), final, None)) then AppendOutcome(Failure(WriteFailed(BigIntMessage)), file)
        else AppendOutcome(Success(final), AppendLine(file, final))
  }

  class LedgerStore {
    const ledgerPath: string
    const sha: string -> string
    /** The file at `ledgerPath`. */
    var file: LedgerFile

    constructor (ledgerPath: string, file: LedgerFile, sha: string -> string)
      ensures this.ledgerPath == ledgerPath && this.file == file && this.sha == sha
    {
      this.ledgerPath := ledgerPath;
      this.file := file;
      this.sha := sha;
    }

    function ComputeEntryHash(entry: seq<Field>): (r: Result<string, LedgerError>)
      ensures EntryText(entry).Success? ==> r == Success(sha(EntryText(entry).value))
      ensures EntryText(entry).Failure? ==> r == Failure(HashFailed(CircularMessage))
    {
      EntryHash(sha, entry)
    }

    /** `readEntries`: the entries of the file as it is now. */
    method ReadEntries() returns (r: Result<seq<seq<Field>>, LedgerError>)
      ensures r == Entries(file)
    {
      r := Entries(file);
    }

    /** Links the entry to the last one, hashes it and writes it as a new last line. */
    method Append(entry: seq<Field>) returns (r: Result<seq<Field>, LedgerError>)
      modifies this
      ensures AppendOutcome(r, file) == AppendSpec(old(file), sha, entry)
    {
      var entries := ReadEntries();
      if entries.Failure? {
        return Failure(entries.error);
      }
      var prev := PrevHash(entries.value);
      var entryWithPrev := WithPrev(entry, prev);
      var entryHash := ComputeEntryHash(entryWithPrev);
      if entryHash.Failure? {
        return Failure(entryHash.error);
      }
      var finalEntry := Put(entryWithPrev, "entry_hash", Str(entryHash.value));
      if WritesBigInt(Object(TopId(finalEntry), finalEntry, None)) {
        return Failure(WriteFailed(BigIntMessage));
      }
      file := AppendLine(file, finalEntry);
      r := Success(finalEntry);
    }
  }

  // ----- Verifying -----

  /** `computeEntryHash` with SHA-256 fixed to `sha`, as the check of each entry uses it. */
  function ComputeHash(sha: string -> string): seq<Field> -> Result<string, LedgerError>
  {
    entry => EntryHash(sha, entry)
  }

  /** The checks on one entry: it points back to `prevHash`, and its `entry_hash` is the
      hash of the rest of it. `Ok` when both hold. */
  function CheckEntry(entry: seq<Field>, hash: seq<Field> -> Result<string, LedgerError>, prevHash: JsValue, index: nat)
    : (r: Result<Verdict, LedgerError>)
    ensures r.Success? && r.value.NotOk? ==> r.value.index == index
    ensures r.Failure? ==> hash(Omit(entry, "entry_hash")).Failure? && r.error == hash(Omit(entry, "entry_hash")).error
  {
    if !StrictEquals(Lookup(entry, "prev_entry_hash"), prevHash) then Success(NotOk(index, PrevMismatch))
    else
      var computed := hash(Omit(entry, "entry_hash"));
      if computed.Failure? then Failure(computed.error)
      else if !StrictEquals(Str(computed.value), Lookup(entry, "entry_hash")) then Success(NotOk(index, HashMismatch))
      else Success(Ok)
  }

  /** The verdict on `entries` given the hash the first of them must point back to, with
      `index` the position of the first of them in the ledger: the first failing check. */
  function VerifyEntries(entries: seq<seq<Field>>, hash: seq<Field> -> Result<string, LedgerError>, prevHash: JsValue, index: nat)
    : (r: Result<Verdict, LedgerError>)
    ensures r.Success? && r.value.NotOk? ==> index <= r.value.index < index + |entries|
    decreases |entries|
  {
    if entries == [] then Success(Ok)
    else
      var check := CheckEntry(entries[0], hash, prevHash, index);
      if check != Success(Ok) then check
      else VerifyEntries(entries[1..], hash, Lookup(entries[0], "entry_hash"), index + 1)
  }

  /** What `verifyLedger` returns (or throws) for the file. */
  function LedgerVerdict(file: LedgerFile, sha: string -> string): Result<Verdict, LedgerError>
  {
    match Entries(file)
    case Failure(e) => Failure(e)
    case Success(entries) => VerifyEntries(entries, ComputeHash(sha), Null, 0)
  }

  method VerifyLedger(ledgerPath: string, file: LedgerFile, sha: string -> string) returns (r: Result<Verdict, LedgerError>)
    ensures r == LedgerVerdict(file, sha)
  {
    var store := new LedgerStore(ledgerPath, file, sha);
    var read := store.ReadEntries();
    if read.Failure? {
      return Failure(read.error);
    }
    var entries := read.value;
    var prevHash := Null;
    var i := 0;
    while i < |entries|
      invariant 0 <= i <= |entries|
      invariant VerifyEntries(entries, ComputeHash(sha), Null, 0) == VerifyEntries(entries[i..], ComputeHash(sha), prevHash, i)
    {
      var entry := entries[i];
      assert entries[i..][0] == entry && entries[i..][1..] == entries[i + 1..];
      if !StrictEquals(Lookup(entry, "prev_entry_hash"), prevHash) {
        return Success(NotOk(i, PrevMismatch));
      }
      var rest := Omit(entry, "entry_hash");
      var computedHash := store.ComputeEntryHash(rest);
      if computedHash.Failure? {
        return Failure(computedHash.error);
      }
      if !StrictEquals(Str(computedHash.value), Lookup(entry, "entry_hash")) {
        return Success(NotOk(i, HashMismatch));
      }
      prevHash := Lookup(entry, "entry_hash");
      i := i + 1;
    }
    return Success(Ok);
  }


  // ----- What the ledger promises -----

  /** The hash the next entry must point back to after `entries`: the last one's
      `entry_hash`, or `prevHash` when there are none. */
  function LastHash(entries: seq<seq<Field>>, prevHash: JsValue): JsValue
  {
    if entries == [] then prevHash else Lookup(entries[|entries| - 1], "entry_hash")
  }

  ghost predicate Injective(sha: string -> string)
  {
    forall x, y :: sha(x) == sha(y) ==> x == y
  }

  /** A missing ledger, and an empty one, verify. */
  lemma EmptyLedgerOk(sha: string -> string)
    ensures LedgerVerdict(Unreadable("ENOENT"), sha) == Success(Ok)
    ensures LedgerVerdict(Present([Blank]), sha) == Success(Ok)
  {
    assert ParseSegments([Blank]) == ParseSegments([]);
  }

  /** Reading a file piece by piece: the records of the first part, then those of the second. */
  lemma {:induction false} ParseSegmentsConcat(a: seq<Segment>, b: seq<Segment>)
    ensures ParseSegments(a + b) ==
      if ParseSegments(a).Success? && ParseSegments(b).Success?
      then Success(ParseSegments(a).value + ParseSegments(b).value)
      else Failure(ParseFailed)
  {
    if a == [] {
      assert a + b == b;
      if ParseSegments(b).Success? {
        assert [] + ParseSegments(b).value == ParseSegments(b).value;
      }
    } else {
      assert (a + b)[0] == a[0] && (a + b)[1..] == a[1..] + b;
      ParseSegmentsConcat(a[1..], b);
      if a[0].Record? && ParseSegments(a[1..]).Success? && ParseSegments(b).Success? {
        assert [a[0].entry] + (ParseSegments(a[1..]).value + ParseSegments(b).value)
          == [a[0].entry] + ParseSegments(a[1..]).value + ParseSegments(b).value;
      }
    }
  }

  /** Appending a line to a well-formed file adds exactly one entry, after all the others,
      and leaves the file well-formed. */
  lemma AppendLineEntries(file: LedgerFile, e: seq<Field>)
    requires WellFormed(file) && Entries(file).Success?
    ensures WellFormed(AppendLine(file, e))
    ensures Entries(AppendLine(file, e)) == Success(Entries(file).value + [e])
  {
    assert [Blank][1..] == [];
    assert ParseSegments([Blank]) == Success([]);
    assert [Record(e), Blank][1..] == [Blank];
    assert [e] + [] == [e];
    assert ParseSegments([Record(e), Blank]) == Success([e]);
    assert [] + [e] == [e];
    if file.Present? {
      var segments := file.segments;
      var init := segments[..|segments| - 1];
      assert segments == init + [Blank];
      ParseSegmentsConcat(init, [Blank]);
      ParseSegmentsConcat(init, [Record(e), Blank]);
      assert ParseSegments(init).value + [] == ParseSegments(init).value;
      var appended := init + [Record(e), Blank];
      assert AppendLine(file, e).segments == appended;
      assert appended[|appended| - 1] == Blank;
    }
  }

  /** The first entry is checked first; the rest are verified against its `entry_hash`. */
  lemma VerifyCons(entry: seq<Field>, rest: seq<seq<Field>>, hash: seq<Field> -> Result<string, LedgerError>, prevHash: JsValue, index: nat)
    ensures VerifyEntries([entry] + rest, hash, prevHash, index) ==
      var check := CheckEntry(entry, hash, prevHash, index);
      if check != Success(Ok) then check
      else VerifyEntries(rest, hash, Lookup(entry, "entry_hash"), index + 1)
  {
    assert ([entry] + rest)[0] == entry && ([entry] + rest)[1..] == rest;
  }

  /** Verifying two runs of entries one after the other: once the first run verifies, the
      second is checked against the first run's last hash. */
  lemma {:induction false} VerifyConcat(a: seq<seq<Field>>, b: seq<seq<Field>>, hash: seq<Field> -> Result<string, LedgerError>, prevHash: JsValue, index: nat)
    requires VerifyEntries(a, hash, prevHash, index) == Success(Ok)
    ensures VerifyEntries(a + b, hash, prevHash, index) == VerifyEntries(b, hash, LastHash(a, prevHash), index + |a|)
    decreases |a|
  {
    if a == [] {
      assert a + b == b;
    } else {
      var next := Lookup(a[0], "entry_hash");
      assert a == [a[0]] + a[1..] && a + b == [a[0]] + (a[1..] + b);
      VerifyCons(a[0], a[1..], hash, prevHash, index);
      VerifyCons(a[0], a[1..] + b, hash, prevHash, index);
      VerifyConcat(a[1..], b, hash, next, index + 1);
      LastHashCons(a, prevHash);
    }
  }

  lemma LastHashCons(a: seq<seq<Field>>, prevHash: JsValue)
    requires a != []
    ensures LastHash(a[1..], Lookup(a[0], "entry_hash")) == LastHash(a, prevHash)
  {
    if |a| > 1 {
      assert a[1..][|a| - 2] == a[|a| - 1];
    }
  }

  /** A run that fails keeps its verdict whatever follows it. */
  lemma {:induction false} VerifyConcatStops(a: seq<seq<Field>>, b: seq<seq<Field>>, hash: seq<Field> -> Result<string, LedgerError>, prevHash: JsValue, index: nat)
    requires VerifyEntries(a, hash, prevHash, index) != Success(Ok)
    ensures VerifyEntries(a + b, hash, prevHash, index) == VerifyEntries(a, hash, prevHash, index)
    decreases |a|
  {
    var next := Lookup(a[0], "entry_hash");
    assert a == [a[0]] + a[1..] && a + b == [a[0]] + (a[1..] + b);
    VerifyCons(a[0], a[1..], hash, prevHash, index);
    VerifyCons(a[0], a[1..] + b, hash, prevHash, index);
    if CheckEntry(a[0], hash, prevHash, index) == Success(Ok) {
      VerifyConcatStops(a[1..], b, hash, next, index + 1);
    }
  }

  /** In a verified run every `entry_hash` is a string, so the last one is a string or the
      starting `null`. */
  lemma {:induction false} VerifiedLastHash(entries: seq<seq<Field>>, hash: seq<Field> -> Result<string, LedgerError>, prevHash: JsValue, index: nat)
    requires VerifyEntries(entries, hash, prevHash, index) == Success(Ok)
    requires prevHash.Null? || prevHash.Str?
    ensures LastHash(entries, prevHash).Null? || LastHash(entries, prevHash).Str?
    decreases |entries|
  {
    if entries != [] {
      var next := Lookup(entries[0], "entry_hash");
      assert CheckEntry(entries[0], hash, prevHash, index) == Success(Ok);
      assert next.Str?;
      VerifiedLastHash(entries[1..], hash, next, index + 1);
      assert LastHash(entries[1..], next) == LastHash(entries, prevHash);
    }
  }

  /** The only error verification throws is the serializer's, on a circular entry. */
  lemma {:induction false} VerifyErrors(entries: seq<seq<Field>>, sha: string -> string, prevHash: JsValue, index: nat)
    ensures VerifyEntries(entries, ComputeHash(sha), prevHash, index).Failure? ==>
      VerifyEntries(entries, ComputeHash(sha), prevHash, index).error == HashFailed(CircularMessage)
    decreases |entries|
  {
    if entries != [] {
      VerifyErrors(entries[1..], sha, Lookup(entries[0], "entry_hash"), index + 1);
    }
  }

  /** The verdict names the first entry that fails: every entry before it verifies. */
  lemma {:induction false} FirstFailure(entries: seq<seq<Field>>, hash: seq<Field> -> Result<string, LedgerError>, prevHash: JsValue, index: nat, k: nat, mismatch: Mismatch)
    requires VerifyEntries(entries, hash, prevHash, index) == Success(NotOk(k, mismatch))
    ensures index <= k < index + |entries| && VerifyEntries(entries[..k - index], hash, prevHash, index) == Success(Ok)
    decreases |entries|
  {
    if k > index {
      var next := Lookup(entries[0], "entry_hash");
      FirstFailure(entries[1..], hash, next, index + 1, k, mismatch);
      assert entries[..k - index][0] == entries[0];
      assert entries[..k - index][1..] == entries[1..][..k - index - 1];
    }
  }

  /** An entry built by `append` passes its checks against the hash it was linked to. */
  lemma AppendedEntryVerifies(withPrev: seq<Field>, h: string, prevHash: JsValue, sha: string -> string, index: nat)
    requires prevHash.Null? || prevHash.Str?
    requires Lookup(withPrev, "prev_entry_hash") == prevHash
    requires "entry_hash" !in Keys(withPrev)
    requires EntryHash(sha, withPrev) == Success(h)
    ensures CheckEntry(Put(withPrev, "entry_hash", Str(h)), ComputeHash(sha), prevHash, index) == Success(Ok)
  {
    LookupPut(withPrev, "entry_hash", Str(h), "prev_entry_hash");
    LookupPut(withPrev, "entry_hash", Str(h), "entry_hash");
    OmitPut(withPrev, "entry_hash", Str(h));
  }

  /** `append` keeps the ledger verifying, for an entry that does not carry its own
      `entry_hash` or `toJSON`; the file stays well-formed. */
  lemma AppendKeepsValid(file: LedgerFile, sha: string -> string, entry: seq<Field>)
    requires WellFormed(file) && LedgerVerdict(file, sha) == Success(Ok)
    requires "entry_hash" !in Keys(entry) && "toJSON" !in Keys(entry)
    requires AppendSpec(file, sha, entry).result.Success?
    ensures WellFormed(AppendSpec(file, sha, entry).file)
    ensures LedgerVerdict(AppendSpec(file, sha, entry).file, sha) == Success(Ok)
  {
    var entries := Entries(file).value;
    var prev := PrevHash(entries);
    var withPrev := WithPrev(entry, prev);
    var h := EntryHash(sha, withPrev).value;
    var final := Put(withPrev, "entry_hash", Str(h));
    assert AppendSpec(file, sha, entry).file == AppendLine(file, final);
    AppendLineEntries(file, final);
    VerifiedLastHash(entries, ComputeHash(sha), Null, 0);
    assert prev == LastHash(entries, Null);
    LookupPut(entry, "prev_entry_hash", prev, "prev_entry_hash");
    PutKeys(entry, "prev_entry_hash", prev);
    AppendedEntryVerifies(withPrev, h, prev, sha, |entries|);
    VerifyExtended(entries, final, ComputeHash(sha));
  }

  /** An entry with a bigint property is never written: `append` throws, at the latest when
      `JSON.stringify` meets the bigint, and the file keeps its content. */
  lemma BigIntEntryNotAppended(file: LedgerFile, sha: string -> string, entry: seq<Field>, k: string)
    requires k != "prev_entry_hash" && k != "entry_hash"
    requires WritesBigInt(Lookup(entry, k))
    ensures AppendSpec(file, sha, entry).result.Failure? && AppendSpec(file, sha, entry).file == file
    ensures Entries(file).Success? && EntryHash(sha, WithPrev(entry, PrevHash(Entries(file).value))).Success? ==>
      AppendSpec(file, sha, entry).result.error == WriteFailed(BigIntMessage)
  {
    if Entries(file).Success? && EntryHash(sha, WithPrev(entry, PrevHash(Entries(file).value))).Success? {
      var withPrev := WithPrev(entry, PrevHash(Entries(file).value));
      var final := Put(withPrev, "entry_hash", Str(EntryHash(sha, withPrev).value));
      LookupPut(withPrev, "entry_hash", Str(EntryHash(sha, withPrev).value), k);
      LookupPut(entry, "prev_entry_hash", PrevHash(Entries(file).value), k);
      LookupFound(final, k);
      FieldWritesBigInt(final, Field(k, Lookup(entry, k)));
      assert WritesBigInt(Object(TopId(final), final, None));
    }
  }

  /** A verified ledger stays verified when an entry that passes its checks against the
      last hash is added at the end. */
  lemma VerifyExtended(entries: seq<seq<Field>>, final: seq<Field>, hash: seq<Field> -> Result<string, LedgerError>)
    requires VerifyEntries(entries, hash, Null, 0) == Success(Ok)
    requires CheckEntry(final, hash, LastHash(entries, Null), |entries|) == Success(Ok)
    ensures VerifyEntries(entries + [final], hash, Null, 0) == Success(Ok)
  {
    VerifyCons(final, [], hash, LastHash(entries, Null), |entries|);
    assert [final] == [final] + [];
    VerifyConcat(entries, [final], hash, Null, 0);
  }

  /** What `append` returns is the entry it wrote, now the last one in the file: linked to
      the previous last entry (or `null`), carrying the hash of everything else, and every
      other property as given. */
  lemma AppendLinks(file: LedgerFile, sha: string -> string, entry: seq<Field>, k: string)
    requires WellFormed(file) && "entry_hash" !in Keys(entry) && "toJSON" !in Keys(entry)
    requires AppendSpec(file, sha, entry).result.Success?
    ensures var entries := Entries(file).value;
      var final := AppendSpec(file, sha, entry).result.value;
      && Entries(AppendSpec(file, sha, entry).file) == Success(entries + [final])
      && Lookup(final, "prev_entry_hash") == PrevHash(entries)
      && Lookup(final, "entry_hash").Str?
      && EntryHash(sha, Omit(final, "entry_hash")) == Success(Lookup(final, "entry_hash").s)
      && (k != "prev_entry_hash" && k != "entry_hash" ==> Lookup(final, k) == Lookup(entry, k))
  {
    var entries := Entries(file).value;
    var prev := PrevHash(entries);
    var withPrev := WithPrev(entry, prev);
    var h := EntryHash(sha, withPrev).value;
    var final := Put(withPrev, "entry_hash", Str(h));
    AppendLineEntries(file, final);
    LookupPut(withPrev, "entry_hash", Str(h), "prev_entry_hash");
    LookupPut(withPrev, "entry_hash", Str(h), "entry_hash");
    LookupPut(entry, "prev_entry_hash", prev, "prev_entry_hash");
    LookupPut(withPrev, "entry_hash", Str(h), k);
    LookupPut(entry, "prev_entry_hash", prev, k);
    PutKeys(entry, "prev_entry_hash", prev);
    OmitPut(withPrev, "entry_hash", Str(h));
  }

  /** Different canonical texts have different hashes when SHA-256 has no collisions. */
  lemma HashesDiffer(sha: string -> string, x: seq<Field>, y: seq<Field>)
    requires Injective(sha) && EntryText(x) != EntryText(y)
    ensures EntryHash(sha, x) != EntryHash(sha, y)
  {
  }

  /** Changing a stored entry without recomputing its hash is detected: verification stops at
      that entry with `entry_hash mismatch` (or throws, when the changed entry cannot be
      serialized). */
  lemma TamperDetected(entries: seq<seq<Field>>, sha: string -> string, k: nat, changed: seq<Field>)
    requires Injective(sha)
    requires VerifyEntries(entries, ComputeHash(sha), Null, 0) == Success(Ok)
    requires k < |entries|
    requires Lookup(changed, "prev_entry_hash") == Lookup(entries[k], "prev_entry_hash")
    requires Lookup(changed, "entry_hash") == Lookup(entries[k], "entry_hash")
    requires EntryText(Omit(changed, "entry_hash")) != EntryText(Omit(entries[k], "entry_hash"))
    ensures VerifyEntries(entries[k := changed], ComputeHash(sha), Null, 0) in
      {Success(NotOk(k, HashMismatch)), Failure(HashFailed(CircularMessage))}
  {
    HashesDiffer(sha, Omit(changed, "entry_hash"), Omit(entries[k], "entry_hash"));
    TamperedAt(entries, ComputeHash(sha), k, changed);
  }

  /** The same for any entry hash: an entry whose hashed part hashes differently fails at
      its own position. */
  lemma TamperedAt(entries: seq<seq<Field>>, hash: seq<Field> -> Result<string, LedgerError>, k: nat, changed: seq<Field>)
    requires VerifyEntries(entries, hash, Null, 0) == Success(Ok)
    requires k < |entries|
    requires Lookup(changed, "prev_entry_hash") == Lookup(entries[k], "prev_entry_hash")
    requires Lookup(changed, "entry_hash") == Lookup(entries[k], "entry_hash")
    requires hash(Omit(changed, "entry_hash")) != hash(Omit(entries[k], "entry_hash"))
    ensures var computed := hash(Omit(changed, "entry_hash"));
      VerifyEntries(entries[k := changed], hash, Null, 0) ==
        if computed.Success? then Success(NotOk(k, HashMismatch)) else Failure(computed.error)
  {
    var tampered := entries[k := changed];
    assert tampered[..k] == entries[..k];
    assert entries[..k] + entries[k..] == entries;
    if VerifyEntries(entries[..k], hash, Null, 0) != Success(Ok) {
      VerifyConcatStops(entries[..k], entries[k..], hash, Null, 0);
      assert false;
    }
    var prev := LastHash(entries[..k], Null);
    VerifyAt(entries, hash, k);
    VerifyAt(tampered, hash, k);
    TamperedCheck(entries[k], changed, hash, prev, k);
  }

  /** Once the entries before position `k` verify, the verdict is that of entry `k`'s checks,
      or, when they pass, that of the entries after it. */
  lemma VerifyAt(entries: seq<seq<Field>>, hash: seq<Field> -> Result<string, LedgerError>, k: nat)
    requires k < |entries| && VerifyEntries(entries[..k], hash, Null, 0) == Success(Ok)
    ensures VerifyEntries(entries, hash, Null, 0) ==
      var check := CheckEntry(entries[k], hash, LastHash(entries[..k], Null), k);
      if check != Success(Ok) then check
      else VerifyEntries(entries[k + 1..], hash, Lookup(entries[k], "entry_hash"), k + 1)
  {
    var before, after := entries[..k], [entries[k]] + entries[k + 1..];
    SplitAt(entries, k);
    VerifyConcat(before, after, hash, Null, 0);
    VerifyCons(entries[k], entries[k + 1..], hash, LastHash(before, Null), k);
  }

  lemma SplitAt<T>(s: seq<T>, k: nat)
    requires k < |s|
    ensures s == s[..k] + ([s[k]] + s[k + 1..])
  {
  }

  lemma TamperedCheck(original: seq<Field>, changed: seq<Field>, hash: seq<Field> -> Result<string, LedgerError>, prevHash: JsValue, k: nat)
    requires CheckEntry(original, hash, prevHash, k) == Success(Ok)
    requires Lookup(changed, "prev_entry_hash") == Lookup(original, "prev_entry_hash")
    requires Lookup(changed, "entry_hash") == Lookup(original, "entry_hash")
    requires hash(Omit(changed, "entry_hash")) != hash(Omit(original, "entry_hash"))
    ensures var computed := hash(Omit(changed, "entry_hash"));
      CheckEntry(changed, hash, prevHash, k) ==
        if computed.Success? then Success(NotOk(k, HashMismatch)) else Failure(computed.error)
  {
  }

  // ----- An entry that already has an `entry_hash` -----

  /** Appending `{entry_hash: "x"}` to a missing ledger: the supplied `entry_hash` is part of
      the hashed text, then replaced by the hash. */
  lemma SuppliedEntryHashAppend(sha: string -> string) returns (final: seq<Field>, t: string)
    ensures EntryText([Field("entry_hash", Str("x")), Field("prev_entry_hash", Null)]) == Success(t)
    ensures final == [Field("entry_hash", Str(sha(t))), Field("prev_entry_hash", Null)]
    ensures AppendSpec(Unreadable("ENOENT"), sha, [Field("entry_hash", Str("x"))]) ==
      AppendOutcome(Success(final), Present([Record(final), Blank]))
    ensures |t| > 2 && t[2] == 'e'
  {
    t := SuppliedHashText();
    final := [Field("entry_hash", Str(sha(t))), Field("prev_entry_hash", Null)];
    SuppliedEntryWritten(sha, t);
  }

  lemma SuppliedEntryWritten(sha: string -> string, t: string)
    requires EntryText([Field("entry_hash", Str("x")), Field("prev_entry_hash", Null)]) == Success(t)
    ensures var final := [Field("entry_hash", Str(sha(t))), Field("prev_entry_hash", Null)];
      AppendSpec(Unreadable("ENOENT"), sha, [Field("entry_hash", Str("x"))]) ==
      AppendOutcome(Success(final), Present([Record(final), Blank]))
  {
    var entry := [Field("entry_hash", Str("x"))];
    var withPrev := WithPrev(entry, Null);
    assert withPrev == [Field("entry_hash", Str("x")), Field("prev_entry_hash", Null)];
    assert EntryHash(sha, withPrev) == Success(sha(t));
    var final := [Field("entry_hash", Str(sha(t))), Field("prev_entry_hash", Null)];
    assert Put(withPrev, "entry_hash", Str(sha(t))) == final;
    SuppliedFinalWritable(sha(t));
    AppendWrites(Unreadable("ENOENT"), sha, entry, final);
  }

  lemma SuppliedFinalWritable(h: string)
    ensures var final := [Field("entry_hash", Str(h)), Field("prev_entry_hash", Null)];
      !WritesBigInt(Object(TopId(final), final, None))
  {
    var final := [Field("entry_hash", Str(h)), Field("prev_entry_hash", Null)];
    FlatFieldsWritable(final);
    assert !BigIntInside(Object(TopId(final), final, None));
  }

  /** The append that hashes and writes `final`. */
  lemma AppendWrites(file: LedgerFile, sha: string -> string, entry: seq<Field>, final: seq<Field>)
    requires Entries(file).Success?
    requires var withPrev := WithPrev(entry, PrevHash(Entries(file).value));
      EntryHash(sha, withPrev).Success? && final == Put(withPrev, "entry_hash", Str(EntryHash(sha, withPrev).value))
    requires !WritesBigInt(Object(TopId(final), final, None))
    ensures AppendSpec(file, sha, entry) == AppendOutcome(Success(final), AppendLine(file, final))
  {
  }

  /** An object whose properties are strings and `null` is written without a bigint. */
  lemma {:induction false} FlatFieldsWritable(fields: seq<Field>)
    requires forall i | 0 <= i < |fields| :: fields[i].value.Str? || fields[i].value.Null?
    ensures !FieldsWriteBigInt(fields)
  {
    if fields != [] {
      assert !BigIntInside(fields[0].value);
      FlatFieldsWritable(fields[1..]);
    }
  }

  /** Why `append` must be given an entry without `entry_hash`: an entry carrying one is
      hashed with it, but verification hashes the entry without it, so the ledger just
      written fails at its first entry. */
  lemma SuppliedEntryHashBreaksChain(sha: string -> string)
    requires Injective(sha)
    ensures var o := AppendSpec(Unreadable("ENOENT"), sha, [Field("entry_hash", Str("x"))]);
      o.result.Success? && LedgerVerdict(o.file, sha) == Success(NotOk(0, HashMismatch))
  {
    var final, t1 := SuppliedEntryHashAppend(sha);
    SingleEntryVerdict(final, sha);
    SuppliedEntryCheck(sha, t1);
  }

  /** A ledger holding one entry is judged by that entry alone. */
  lemma SingleEntryVerdict(final: seq<Field>, sha: string -> string)
    ensures LedgerVerdict(Present([Record(final), Blank]), sha) == CheckEntry(final, ComputeHash(sha), Null, 0)
  {
    AppendLineEntries(Unreadable("ENOENT"), final);
    VerifyCons(final, [], ComputeHash(sha), Null, 0);
    assert [final] == [final] + [];
  }

  lemma SuppliedEntryCheck(sha: string -> string, t: string)
    requires Injective(sha)
    requires |t| > 2 && t[2] == 'e'
    ensures var final := [Field("entry_hash", Str(sha(t))), Field("prev_entry_hash", Null)];
      CheckEntry(final, ComputeHash(sha), Null, 0) == Success(NotOk(0, HashMismatch))
  {
    var final := [Field("entry_hash", Str(sha(t))), Field("prev_entry_hash", Null)];
    RestHashDiffers(sha, t);
    assert final[1..] == [Field("prev_entry_hash", Null)];
    assert Lookup(final, "prev_entry_hash") == Null;
    assert Lookup(final, "entry_hash") == Str(sha(t));
    assert Omit(final, "entry_hash") == [Field("prev_entry_hash", Null)];
    HashMismatchAt(final, ComputeHash(sha), Null, 0);
  }

  /** An entry linked correctly whose stored hash is not the computed one fails with
      `entry_hash mismatch`. */
  lemma HashMismatchAt(entry: seq<Field>, hash: seq<Field> -> Result<string, LedgerError>, prevHash: JsValue, index: nat)
    requires StrictEquals(Lookup(entry, "prev_entry_hash"), prevHash)
    requires hash(Omit(entry, "entry_hash")).Success?
    requires Lookup(entry, "entry_hash") != Str(hash(Omit(entry, "entry_hash")).value)
    ensures CheckEntry(entry, hash, prevHash, index) == Success(NotOk(index, HashMismatch))
  {
  }

  /** What verification computes for that entry is not the hash `append` stored. */
  lemma RestHashDiffers(sha: string -> string, t: string)
    requires Injective(sha)
    requires |t| > 2 && t[2] == 'e'
    ensures EntryHash(sha, [Field("prev_entry_hash", Null)]).Success?
    ensures EntryHash(sha, [Field("prev_entry_hash", Null)]).value != sha(t)
  {
    var rest := VerifiedRestText();
    assert t != rest by { assert t[2] != rest[2]; }
  }

  /** The text `append` hashes for that entry: it starts `{"e`. */
  lemma SuppliedHashText() returns (t: string)
    ensures EntryText([Field("entry_hash", Str("x")), Field("prev_entry_hash", Null)]) == Success(t)
    ensures |t| > 2 && t[2] == 'e'
  {
    var f := [Field("entry_hash", Str("x")), Field("prev_entry_hash", Null)];
    assert MaxIdFields(f[1..][1..]) == 0;
    assert TopId(f) == 1;
    assert Less("entry_hash", "prev_entry_hash");
    TwoFields(1, "entry_hash", Str("x"), "prev_entry_hash", Null);
    TwoFieldsObjectReached(1, f);
    t := Render(Object(1, f, None));
    RenderFirstKey(1, f);
  }

  /** The text verification hashes for it: it starts `{"p`. */
  lemma VerifiedRestText() returns (t: string)
    ensures EntryText([Field("prev_entry_hash", Null)]) == Success(t)
    ensures |t| > 2 && t[2] == 'p'
  {
    var f := [Field("prev_entry_hash", Null)];
    assert TopId(f) == 1;
    SingleField(1, "prev_entry_hash", Null);
    t := Render(Object(1, f, None));
    RenderFirstKey(1, f);
  }

  /** An object's text starts with `{"` and the first character of its first key. */
  lemma RenderFirstKey(id: nat, f: seq<Field>)
    requires f != [] && f[0].key != [] && f[0].key[0] >= ' ' && f[0].key[0] != '"' && f[0].key[0] != '\\'
    ensures var t := Render(Object(id, f, None)); |t| > 2 && t[2] == f[0].key[0]
  {
    var k := f[0].key;
    assert Escape(k) == [k[0]] + Escape(k[1..]);
    var parts := RenderFields(f);
    var first := Quote(k) + ":" + Render(f[0].value);
    assert parts[0] == first;
    assert Join(parts, ",")[..|first|] == first;
  }
}
