/**
 * The navigation helpers of utils/projects.ts: the sidebar entries built from the
 * project list, the task items of one project, and the selection shown first.
 */
module Projects {
  import opened Wrappers
  import opened Seqs

  datatype ProjectTask = ProjectTask(id: string, title: string, summary: string, details: seq<string>)
  datatype ModelBuild = ModelBuild(id: string, name: string, description: string, path: string)
  datatype Project = Project(
    slug: string, title: string, summary: string,
    models: seq<ModelBuild>, tasks: seq<ProjectTask>, instructions: string)

  /** A model's entry; `meta` holds the project, the model and the model's id. */
  datatype NavigationModelEntry = NavigationModelEntry(
    labelText: string, description: string, value: string,
    metaProject: Project, metaModel: ModelBuild, metaId: string)

  datatype NavigationProjectEntry = NavigationProjectEntry(
    labelText: string, description: string, defaultOpen: bool, slot: string,
    children: seq<NavigationModelEntry>)

  datatype TaskItem = TaskItem(labelText: string, description: string, points: seq<string>)

  /** `${project.slug}-${model.id}`. */
  function EntryValue(slug: string, modelId: string): string
  {
    slug + "-" + modelId
  }

  function ModelEntry(project: Project): ModelBuild -> NavigationModelEntry
  {
    (model: ModelBuild) =>
      NavigationModelEntry(model.name, model.description, EntryValue(project.slug, model.id), project, model, model.id)
  }

  function ProjectEntry(project: Project): NavigationProjectEntry
  {
    NavigationProjectEntry(project.title, project.summary, true, "project", MapSeq(project.models, ModelEntry(project)))
  }

  /** `buildNavigationLinks`: one open `project` entry per project, in order, labelled
      and described by its title and summary, with one child per model, in order. */
  function BuildNavigationLinks(projects: seq<Project>): (r: seq<NavigationProjectEntry>)
    ensures |r| == |projects|
    ensures forall i | 0 <= i < |projects| ::
      r[i].labelText == projects[i].title && r[i].description == projects[i].summary
      && r[i].defaultOpen && r[i].slot == "project"
      && |r[i].children| == |projects[i].models|
    ensures forall i, k | 0 <= i < |projects| && 0 <= k < |projects[i].models| ::
      var child, model := r[i].children[k], projects[i].models[k];
      child.labelText == model.name && child.description == model.description
      && child.value == EntryValue(projects[i].slug, model.id)
      && child.metaProject == projects[i] && child.metaModel == model && child.metaId == model.id
  {
    MapSeq(projects, ProjectEntry)
  }

  /** `buildTaskItems`: nothing for a missing project; otherwise one item per task, in
      order, whose points are the task's details. */
  function BuildTaskItems(project: Option<Project>): (r: seq<TaskItem>)
    ensures project.None? ==> r == []
    ensures project.Some? ==> |r| == |project.value.tasks| && forall i | 0 <= i < |r| ::
      var task := project.value.tasks[i];
      r[i] == TaskItem(task.title, task.summary, task.details)
  {
    if project.None? then []
    else MapSeq(project.value.tasks, (task: ProjectTask) => TaskItem(task.title, task.summary, task.details))
  }

  datatype DefaultSelection = DefaultSelection(project: Option<Project>, model: Option<ModelBuild>)

  /** `selectDefaultProjectModel`. */
  function SelectDefaultProjectModel(projects: seq<Project>): (r: DefaultSelection)
    ensures projects == [] ==> r.project.None? && r.model.None?
    ensures projects != [] ==> r.project == Some(projects[0])
    ensures r.model.Some? <==> projects != [] && projects[0].models != []
    ensures r.model.Some? ==> r.model.value == projects[0].models[0]
  {
    var defaultProject := if projects == [] then None else Some(projects[0]);
    var defaultModel := if defaultProject.None? || defaultProject.value.models == [] then None
      else Some(defaultProject.value.models[0]);
    DefaultSelection(defaultProject, defaultModel)
  }

  /** The default selection is the first child of the first navigation entry. */
  lemma DefaultIsFirstEntry(projects: seq<Project>)
    requires SelectDefaultProjectModel(projects).model.Some?
    ensures var nav := BuildNavigationLinks(projects);
      var d := SelectDefaultProjectModel(projects);
      nav != [] && nav[0].children != []
      && nav[0].children[0].metaProject == d.project.value && nav[0].children[0].metaModel == d.model.value
  {
  }

  /** Within one project, entries of models with different ids have different values. */
  lemma EntryValuesDistinct(slug: string, id1: string, id2: string)
    requires id1 != id2
    ensures EntryValue(slug, id1) != EntryValue(slug, id2)
  {
    var n := |slug| + 1;
    assert EntryValue(slug, id1)[n..] == id1;
    assert EntryValue(slug, id2)[n..] == id2;
  }

  /** Across projects they can collide: slug `a-b` with model `c` and slug `a` with
      model `b-c` both give `a-b-c`. */
  lemma EntryValuesCanCollide()
    ensures EntryValue("a-b", "c") == EntryValue("a", "b-c")
  {
  }
}
