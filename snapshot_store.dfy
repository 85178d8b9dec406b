/**
 * The snapshot store of baseline/store/filesystemStore.js: a store rooted at `rootDir`
 * that writes an optional artifact, a snapshot file and a `latest` copy. The file system
 * is the store's own state, a map from path to content plus the set of directories
 * created; `JSON.stringify(snapshot, null, 2)` is a function parameter.
 */
module SnapshotStore {
  import opened Wrappers
  import opened Strings
  import opened Js

  /** A root that `path.join` leaves as it is: non-empty, with no empty segment except
      the leading one of an absolute path, and no `.` or `..` segment. */
  predicate NormalRoot(root: string)
  {
    root != [] &&
    var segments := Split(root, '/');
    forall i | 0 <= i < |segments| :: segments[i] != "." && segments[i] != ".." && (segments[i] == [] ==> i == 0)
  }

  /** `path.join(dir, name)` for a normal `dir` and a name without separators or dot
      segments. */
  function JoinPath(dir: string, name: string): string
  {
    dir + "/" + name
  }

  function ArtifactsDir(root: string): string { JoinPath(root, "artifacts") }
  function SnapshotsDir(root: string): string { JoinPath(root, "snapshots") }
  function ArtifactPath(root: string, id: string): string { JoinPath(ArtifactsDir(root), id + ".txt") }
  function SnapshotPath(root: string, id: string): string { JoinPath(SnapshotsDir(root), id + ".json") }
  function LatestPath(root: string): string { JoinPath(SnapshotsDir(root), "latest.json") }

  /** A snapshot input: its `id` is a string without `/` and its `bodyText` a string or
      falsy. */
  predicate ValidInput(input: seq<Field>)
  {
    Lookup(input, "id").Str? && '/' !in Lookup(input, "id").s
    && (Lookup(input, "bodyText").Str? || !Truthy(Lookup(input, "bodyText")))
  }

  /** A body is written only when it is truthy: a non-empty string. */
  predicate HasBody(input: seq<Field>)
  {
    Truthy(Lookup(input, "bodyText"))
  }

  /** `{ ...input, artifactPath }`. */
  function SnapshotOf(root: string, input: seq<Field>): seq<Field>
    requires ValidInput(input)
  {
    var id := Lookup(input, "id").s;
    Put(input, "artifactPath", if HasBody(input) then Str(ArtifactPath(root, id)) else Undefined)
  }

  /** The files after `writeSnapshot`: the artifact (with a body), then the snapshot file,
      then `latest.json`. */
  function FilesAfter(files: map<string, string>, root: string, input: seq<Field>, stringify: seq<Field> -> string): map<string, string>
    requires ValidInput(input)
  {
    var id := Lookup(input, "id").s;
    var withArtifact := if HasBody(input) then files[ArtifactPath(root, id) := Lookup(input, "bodyText").s] else files;
    var text := stringify(SnapshotOf(root, input));
    withArtifact[SnapshotPath(root, id) := text][LatestPath(root) := text]
  }

  function DirsAfter(dirs: set<string>, root: string, input: seq<Field>): set<string>
  {
    dirs + {SnapshotsDir(root)} + (if HasBody(input) then {ArtifactsDir(root)} else {})
  }

  class FilesystemStore {
    const rootDir: string
    var files: map<string, string>
    var dirs: set<string>

    /** A store over an existing file system. */
    constructor(rootDir: string, files: map<string, string>, dirs: set<string>)
      requires NormalRoot(rootDir)
      ensures this.rootDir == rootDir && this.files == files && this.dirs == dirs
    {
      this.rootDir := rootDir;
      this.files := files;
      this.dirs := dirs;
    }

    /** `ensureDir`: `mkdir -p`. */
    method EnsureDir(path: string)
      modifies this
      ensures dirs == old(dirs) + {path} && files == old(files)
    {
      dirs := dirs + {path};
    }

    /** `writeArtifact`: nothing for a falsy body; otherwise the body goes to
        `artifacts/<id>.txt`, whose path is returned. */
    method WriteArtifact(snapshotId: string, bodyText: JsValue) returns (artifactPath: JsValue)
      requires NormalRoot(rootDir) && '/' !in snapshotId
      requires bodyText.Str? || !Truthy(bodyText)
      modifies this
      ensures !Truthy(bodyText) ==> artifactPath == Undefined && files == old(files) && dirs == old(dirs)
      ensures Truthy(bodyText) ==>
        artifactPath == Str(ArtifactPath(rootDir, snapshotId))
        && files == old(files)[ArtifactPath(rootDir, snapshotId) := bodyText.s]
        && dirs == old(dirs) + {ArtifactsDir(rootDir)}
    {
      if !Truthy(bodyText) {
        return Undefined;
      }
      var artifactsDir := JoinPath(rootDir, "artifacts");
      EnsureDir(artifactsDir);
      var path := JoinPath(artifactsDir, snapshotId + ".txt");
      files := files[path := bodyText.s];
      return Str(path);
    }

    /** `writeSnapshot`. */
    method WriteSnapshot(input: seq<Field>, stringify: seq<Field> -> string) returns (snapshot: seq<Field>)
      requires NormalRoot(rootDir) && ValidInput(input)
      modifies this
      ensures snapshot == SnapshotOf(rootDir, input)
      ensures files == FilesAfter(old(files), rootDir, input, stringify)
      ensures dirs == DirsAfter(old(dirs), rootDir, input)
    {
      var snapshotsDir := JoinPath(rootDir, "snapshots");
      EnsureDir(snapshotsDir);
      var id := Lookup(input, "id").s;
      var artifactPath := WriteArtifact(id, Lookup(input, "bodyText"));
      snapshot := Put(input, "artifactPath", artifactPath);
      var snapshotPath := JoinPath(snapshotsDir, id + ".json");
      files := files[snapshotPath := stringify(snapshot)];
      var latestPath := JoinPath(snapshotsDir, "latest.json");
      files := files[latestPath := stringify(snapshot)];
    }
  }

  /** The artifact lives apart from both snapshot files. */
  lemma PathsDistinct(root: string, id: string)
    ensures ArtifactPath(root, id) != SnapshotPath(root, id)
    ensures ArtifactPath(root, id) != LatestPath(root)
  {
    var k := |root| + 1;
    assert ArtifactPath(root, id)[k] == 'a';
    assert SnapshotPath(root, id)[k] == 's';
    assert LatestPath(root)[k] == 's';
  }

  /** The snapshot is the input with `artifactPath` set: every other property, `bodyText`
      included, keeps its value, and `artifactPath` is the artifact's path exactly when
      there is a body. */
  lemma SnapshotKeepsInput(root: string, input: seq<Field>, k: string)
    requires ValidInput(input)
    ensures var snapshot := SnapshotOf(root, input);
      Lookup(snapshot, k) == if k == "artifactPath" then
        (if HasBody(input) then Str(ArtifactPath(root, Lookup(input, "id").s)) else Undefined)
      else Lookup(input, k)
  {
    var id := Lookup(input, "id").s;
    LookupPut(input, "artifactPath", if HasBody(input) then Str(ArtifactPath(root, id)) else Undefined, k);
  }

  /** The snapshot file and `latest.json` hold the same text, and the artifact holds the
      body when there is one. */
  lemma SnapshotFilesAgree(files: map<string, string>, root: string, input: seq<Field>, stringify: seq<Field> -> string)
    requires NormalRoot(root) && ValidInput(input)
    ensures var after := FilesAfter(files, root, input, stringify);
      var id := Lookup(input, "id").s;
      var text := stringify(SnapshotOf(root, input));
      SnapshotPath(root, id) in after && LatestPath(root) in after
      && after[SnapshotPath(root, id)] == text && after[LatestPath(root)] == text
      && (HasBody(input) ==> ArtifactPath(root, id) in after && after[ArtifactPath(root, id)] == Lookup(input, "bodyText").s)
  {
    PathsDistinct(root, Lookup(input, "id").s);
  }

  /** Only the snapshot file, `latest.json` and (with a body) the artifact change; no
      artifact is written for a falsy body. */
  lemma OnlyThreePathsChange(files: map<string, string>, root: string, input: seq<Field>, stringify: seq<Field> -> string, p: string)
    requires NormalRoot(root) && ValidInput(input)
    ensures var id := Lookup(input, "id").s;
      var after := FilesAfter(files, root, input, stringify);
      var written := p == SnapshotPath(root, id) || p == LatestPath(root) || (HasBody(input) && p == ArtifactPath(root, id));
      (p in after <==> p in files || written)
      && (!written && p in files ==> after[p] == files[p])
  {
  }

  /** Writing the same input twice leaves the files as writing it once: the last writer wins. */
  lemma WriteSnapshotIdempotent(files: map<string, string>, root: string, input: seq<Field>, stringify: seq<Field> -> string)
    requires NormalRoot(root) && ValidInput(input)
    ensures FilesAfter(FilesAfter(files, root, input, stringify), root, input, stringify) == FilesAfter(files, root, input, stringify)
    ensures DirsAfter(DirsAfter({}, root, input), root, input) == DirsAfter({}, root, input)
  {
    var once := FilesAfter(files, root, input, stringify);
    var twice := FilesAfter(once, root, input, stringify);
    forall p ensures (p in twice <==> p in once) && (p in once ==> twice[p] == once[p]) {
      OnlyThreePathsChange(once, root, input, stringify, p);
      OnlyThreePathsChange(files, root, input, stringify, p);
      SnapshotFilesAgree(once, root, input, stringify);
      SnapshotFilesAgree(files, root, input, stringify);
    }
  }
}
