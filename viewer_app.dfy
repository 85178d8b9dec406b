/**
 * The static viewer of app.js: the route in `location.hash`, the selected project and
 * implementation, and the `active` mark on the sidebar items. The page is a `Viewer`
 * object whose fields are the script's module variables and the parts of the DOM the
 * selection writes.
 */
module ViewerApp {
  import opened Wrappers
  import opened Strings
  import opened Seqs

  /** One entry of a project's `implementations` in the manifest. */
  datatype Implementation = Implementation(modelId: string, title: string, path: string)

  /** One entry of the manifest's `projects`. */
  datatype ManifestProject = ManifestProject(id: string, title: string, implementations: seq<Implementation>)

  /** What `parseHash` returns when it finds a route. */
  datatype Route = Route(projectId: string, modelId: string)

  /** The `data-project` and `data-model` attributes of a sidebar item. */
  datatype ItemData = ItemData(project: string, model: string)

  /** The hash `selectImplementation` writes. */
  function HashOf(projectId: string, modelId: string): string
  {
    "#/" + projectId + "/" + modelId
  }

  /** `parseHash`. */
  function ParseHash(hash: string): Option<Route>
  {
    if !StartsWith(hash, "#/") then None
    else
      var parts := Split(hash[2..], '/');
      if |parts| < 2 then None else Some(Route(parts[0], parts[1]))
  }

  /** A hash names a route exactly when it starts with `#/` and has a `/` after that. */
  lemma ParseHashIff(hash: string)
    ensures ParseHash(hash).Some? <==> StartsWith(hash, "#/") && '/' in hash[2..]
  {
  }

  /** Reading back a written hash gives the same ids, when neither holds a `/`. */
  lemma ParseHashOf(projectId: string, modelId: string)
    requires '/' !in projectId && '/' !in modelId
    ensures ParseHash(HashOf(projectId, modelId)) == Some(Route(projectId, modelId))
  {
    var h := HashOf(projectId, modelId);
    assert h[..2] == "#/";
    assert h[2..] == Join([projectId, modelId], "/");
    SplitJoin([projectId, modelId], '/');
  }

  /** Segments after the second are ignored. */
  lemma ParseHashIgnoresExtra(projectId: string, modelId: string, rest: string)
    requires '/' !in projectId && '/' !in modelId
    ensures ParseHash(HashOf(projectId, modelId) + "/" + rest) == Some(Route(projectId, modelId))
  {
    var h := HashOf(projectId, modelId) + "/" + rest;
    var tail := Split(rest, '/');
    var parts := [projectId, modelId] + tail;
    assert parts[1..] == [modelId] + tail && parts[2..] == tail;
    assert Join(parts, "/") == projectId + "/" + (modelId + "/" + Join(tail, "/"));
    assert h[..2] == "#/";
    assert h[2..] == Join(parts, "/");
    SplitJoin(parts, '/');
  }

  function ProjectNamed(id: string): ManifestProject -> bool
  {
    (p: ManifestProject) => p.id == id
  }

  function ImplementationNamed(modelId: string): Implementation -> bool
  {
    (m: Implementation) => m.modelId == modelId
  }

  /** The project `applyRoute` picks: the first with the routed id, else the first one. */
  function RoutedProject(projects: seq<ManifestProject>, parsed: Option<Route>): (p: ManifestProject)
    requires projects != []
    ensures p in projects
  {
    if parsed.None? then projects[0]
    else Find(projects, ProjectNamed(parsed.value.projectId)).GetOr(projects[0])
  }

  /** The implementation it picks within that project: the first with the routed model
      id, else the first one, and none when the project has none. */
  function RoutedImplementation(project: ManifestProject, parsed: Option<Route>): (m: Option<Implementation>)
    ensures m.None? <==> project.implementations == []
    ensures m.Some? ==> m.value in project.implementations
  {
    if project.implementations == [] then None
    else if parsed.None? then Some(project.implementations[0])
    else Some(Find(project.implementations, ImplementationNamed(parsed.value.modelId)).GetOr(project.implementations[0]))
  }

  const NoImplementationText := "TypeError: Cannot read properties of undefined (reading 'modelId')"

  /** The pair `applyRoute` hands to `selectImplementation`, or the error it throws on a
      project without implementations. */
  function RouteTarget(projects: seq<ManifestProject>, routeHash: string): Result<(ManifestProject, Implementation), string>
    requires projects != []
  {
    var parsed := ParseHash(routeHash);
    var project := RoutedProject(projects, parsed);
    match RoutedImplementation(project, parsed)
    case None => Failure(NoImplementationText)
    case Some(m) => Success((project, m))
  }

  /** The pair `selectImplementation` finds, if both ids are known. */
  function Selection(manifest: Option<seq<ManifestProject>>, projectId: string, modelId: string): Option<(ManifestProject, Implementation)>
  {
    if manifest.None? then None
    else match Find(manifest.value, ProjectNamed(projectId))
      case None => None
      case Some(p) =>
        match Find(p.implementations, ImplementationNamed(modelId))
        case None => None
        case Some(m) => Some((p, m))
  }

  /** A found pair carries the ids asked for and comes from the manifest; an id that no
      project has finds nothing. */
  lemma SelectionIds(manifest: Option<seq<ManifestProject>>, projectId: string, modelId: string)
    ensures var s := Selection(manifest, projectId, modelId);
      s.Some? ==>
        (s.value.0.id == projectId && s.value.1.modelId == modelId
         && s.value.0 in manifest.value && s.value.1 in s.value.0.implementations)
    ensures manifest.Some? && (forall i | 0 <= i < |manifest.value| :: manifest.value[i].id != projectId) ==>
      Selection(manifest, projectId, modelId).None?
  {
  }

  /** An item is active when it names the current project and the current model. */
  predicate IsActive(item: ItemData, currentProject: Option<ManifestProject>, currentModel: Option<Implementation>)
  {
    currentProject.Some? && currentModel.Some?
    && item.project == currentProject.value.id && item.model == currentModel.value.modelId
  }

  class Viewer {
    var manifest: Option<seq<ManifestProject>>
    var currentProject: Option<ManifestProject>
    var currentModel: Option<Implementation>
    var hash: string
    var items: seq<ItemData>
    var active: seq<bool>
    var previewSrc: string
    /** The `href` of the "open in a new tab" link. */
    var openHref: string
    var status: string

    /** The page with the given manifest, sidebar items and address hash, nothing selected. */
    constructor(manifest: Option<seq<ManifestProject>>, items: seq<ItemData>, hash: string)
      ensures this.manifest == manifest && this.items == items && this.hash == hash
      ensures currentProject == None && currentModel == None
      ensures |active| == |items| && forall i | 0 <= i < |items| :: !active[i]
      ensures previewSrc == "" && openHref == "" && status == ""
    {
      this.manifest := manifest;
      this.items := items;
      this.hash := hash;
      currentProject := None;
      currentModel := None;
      active := seq(|items|, _ => false);
      previewSrc := "";
      openHref := "";
      status := "";
    }

    /** `updateActiveState`: each item is marked active exactly when it names the
        current selection. */
    method UpdateActiveState()
      modifies this
      ensures |active| == |items|
      ensures forall i | 0 <= i < |items| :: active[i] <==> IsActive(items[i], currentProject, currentModel)
      ensures manifest == old(manifest) && currentProject == old(currentProject) && currentModel == old(currentModel)
      ensures hash == old(hash) && items == old(items)
      ensures previewSrc == old(previewSrc) && openHref == old(openHref) && status == old(status)
    {
      var flags: seq<bool> := [];
      var i := 0;
      while i < |items|
        invariant 0 <= i <= |items| && |flags| == i
        invariant forall j | 0 <= j < i :: flags[j] <==> IsActive(items[j], currentProject, currentModel)
      {
        flags := flags + [IsActive(items[i], currentProject, currentModel)];
        i := i + 1;
      }
      active := flags;
    }

    /** `selectImplementation`: an unknown pair, or no manifest, changes nothing;
        otherwise the pair becomes the selection, the hash names it (when asked),
        the preview shows it and exactly its sidebar items are active. */
    method SelectImplementation(projectId: string, modelId: string, updateHash: bool)
      modifies this
      ensures manifest == old(manifest) && items == old(items)
      ensures var s := Selection(old(manifest), projectId, modelId);
        if s.None? then
          currentProject == old(currentProject) && currentModel == old(currentModel) && hash == old(hash)
          && active == old(active) && previewSrc == old(previewSrc) && openHref == old(openHref) && status == old(status)
        else
          currentProject == Some(s.value.0) && currentModel == Some(s.value.1)
          && hash == (if updateHash then HashOf(projectId, modelId) else old(hash))
          && previewSrc == s.value.1.path && openHref == s.value.1.path
          && status == "Loaded " + modelId + " for " + projectId
          && |active| == |items| && forall i | 0 <= i < |items| :: active[i] <==> items[i] == ItemData(projectId, modelId)
    {
      if manifest.None? {
        return;
      }
      var project := Find(manifest.value, ProjectNamed(projectId));
      if project.None? {
        return;
      }
      var impl := Find(project.value.implementations, ImplementationNamed(modelId));
      if impl.None? {
        return;
      }
      currentProject := project;
      currentModel := impl;
      if updateHash {
        var newHash := HashOf(projectId, modelId);
        if hash != newHash {
          hash := newHash;
        }
      }
      previewSrc := impl.value.path;
      openHref := impl.value.path;
      status := "Loaded " + impl.value.modelId + " for " + project.value.id;
      UpdateActiveState();
    }

    /** `applyRoute`: nothing without a manifest or without projects; otherwise the
        routed pair (with its fallbacks) is selected and the hash left as it is, or the
        error is thrown before anything changes. */
    method ApplyRoute(routeHash: string) returns (r: Outcome<string>)
      modifies this
      ensures manifest == old(manifest) && items == old(items) && hash == old(hash)
      ensures old(manifest).None? || old(manifest).value == [] ==>
        r == Pass && currentProject == old(currentProject) && currentModel == old(currentModel) && active == old(active)
        && previewSrc == old(previewSrc) && openHref == old(openHref) && status == old(status)
      ensures old(manifest).Some? && old(manifest).value != [] ==>
        match RouteTarget(old(manifest).value, routeHash)
        case Failure(e) =>
          r == Fail(e) && currentProject == old(currentProject) && currentModel == old(currentModel) && active == old(active)
          && previewSrc == old(previewSrc) && openHref == old(openHref) && status == old(status)
        case Success(pair) =>
          r == Pass && currentProject == Some(pair.0) && currentModel == Some(pair.1)
          && previewSrc == pair.1.path && openHref == pair.1.path
          && status == "Loaded " + pair.1.modelId + " for " + pair.0.id
          && |active| == |items| && forall i | 0 <= i < |items| :: active[i] <==> items[i] == ItemData(pair.0.id, pair.1.modelId)
    {
      if manifest.None? || |manifest.value| == 0 {
        return Pass;
      }
      var projects := manifest.value;
      var parsed := ParseHash(routeHash);
      var project := RoutedProject(projects, parsed);
      var model := RoutedImplementation(project, parsed);
      if model.None? {
        return Fail(NoImplementationText);
      }
      RoutedPairSelectable(projects, parsed);
      SelectImplementation(project.id, model.value.modelId, false);
      return Pass;
    }
  }

  /** The pair `applyRoute` picks is found again by `selectImplementation` from its ids. */
  lemma RoutedPairSelectable(projects: seq<ManifestProject>, parsed: Option<Route>)
    requires projects != []
    requires RoutedImplementation(RoutedProject(projects, parsed), parsed).Some?
    ensures var p := RoutedProject(projects, parsed);
      var m := RoutedImplementation(p, parsed).value;
      Selection(Some(projects), p.id, m.modelId) == Some((p, m))
  {
    var p := RoutedProject(projects, parsed);
    var m := RoutedImplementation(p, parsed).value;
    if parsed.Some? && Find(projects, ProjectNamed(parsed.value.projectId)).Some? {
      assert ProjectNamed(p.id) == ProjectNamed(parsed.value.projectId);
    } else {
      FindFirst(projects, ProjectNamed(p.id), 0);
    }
    var impls := p.implementations;
    if parsed.Some? && Find(impls, ImplementationNamed(parsed.value.modelId)).Some? {
      assert ImplementationNamed(m.modelId) == ImplementationNamed(parsed.value.modelId);
    } else {
      FindFirst(impls, ImplementationNamed(m.modelId), 0);
    }
  }

  /** The fallbacks: an unparsable hash or an unknown project id routes to the first
      project; an unknown model id to that project's first implementation. */
  lemma RouteFallbacks(projects: seq<ManifestProject>, routeHash: string)
    requires projects != []
    ensures var parsed := ParseHash(routeHash);
      (parsed.None? || forall i | 0 <= i < |projects| :: projects[i].id != parsed.value.projectId) ==>
        RoutedProject(projects, parsed) == projects[0]
    ensures var parsed := ParseHash(routeHash);
      var p := RoutedProject(projects, parsed);
      p.implementations != [] && (parsed.None? || forall k | 0 <= k < |p.implementations| :: p.implementations[k].modelId != parsed.value.modelId) ==>
        RoutedImplementation(p, parsed) == Some(p.implementations[0])
  {
  }

  /** The hash `selectImplementation` writes routes back to the same pair, so the
      `hashchange` that follows selects nothing new (ids without `/`). */
  lemma RouteOfWrittenHash(projects: seq<ManifestProject>, projectId: string, modelId: string)
    requires projects != [] && '/' !in projectId && '/' !in modelId
    requires Selection(Some(projects), projectId, modelId).Some?
    ensures RouteTarget(projects, HashOf(projectId, modelId)) == Success(Selection(Some(projects), projectId, modelId).value)
  {
    ParseHashOf(projectId, modelId);
  }
}
