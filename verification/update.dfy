/** The message handler `App::update`: one transition per message, each
    delegating to the module that models that part of the state. */
module Update {
  import opened Domain
  import TaskControl
  import ProjectList
  import Manifest

  /** The messages of the application. Payloads that come from the file
      dialog or the file watcher are paths; the divider and download-progress
      messages carry floating-point values that are not modelled. */
  datatype Message =
    | ImportProject
    | ImportProjectSelected(picked: Option<FilePath>)
    | CreateProject
    | RemoveProject(index: nat)
    | SelectTask(project: nat, task: nat)
    | StartTask(project: nat, task: nat)
    | StopTask(project: nat, task: nat)
    | TaskOutput(project: nat, task: nat, line: string)
    | TaskCompleted(project: nat, task: nat, success: bool, output: seq<string>)
    | ProjectDragStart(index: nat)
    | ProjectDragEnd
    | ProjectHovered(index: nat)
    | DividerDragStart
    | DividerDragging
    | DividerDragEnd
    | BunDownloadProgress
    | BunReady
    | FileChanged(path: FilePath)
    | RefreshProjects

  /** The parsed `package.json` of `dir`, if it could be read and parsed. */
  function ManifestAt(env: Env, dir: string): Option<PackageJson> {
    if dir in env.manifests then Some(env.manifests[dir]) else None
  }

  /** `FileChanged(path)`: a change to some `package.json` refreshes the
      first project in its directory; then the visibility of every project is
      recomputed from the file system. */
  function OnFileChanged(app: App, path: FilePath, env: Env): (r: App)
    ensures r == app.(projects := r.projects)
    ensures |r.projects| == |app.projects|
    ensures forall i :: 0 <= i < |r.projects| ==>
      && r.projects[i].hidden == (app.projects[i].path !in env.manifestDirs)
      && r.projects[i].name == app.projects[i].name
      && r.projects[i].path == app.projects[i].path
    ensures path.fileName != Some(ManifestFileName) || path.parent.None? ==>
      forall i :: 0 <= i < |r.projects| ==> r.projects[i].tasks == app.projects[i].tasks
    ensures path.fileName == Some(ManifestFileName) && path.parent.Some? ==>
      var dir := path.parent.value;
      var first := Manifest.FirstWithPath(app.projects, dir);
      forall i :: 0 <= i < |r.projects| ==>
        r.projects[i].tasks
        == if first.Some? && first.value == i && dir in env.manifests && env.manifests[dir].scripts.Some?
           then Manifest.MergeScripts(env.manifests[dir].scripts.value, Manifest.ExistingTasks(app.projects[i].tasks))
           else app.projects[i].tasks
  {
    var refreshed :=
      if path.fileName == Some(ManifestFileName) && path.parent.Some? then
        Manifest.RefreshProjectTasks(app.projects, path.parent.value, ManifestAt(env, path.parent.value))
      else app.projects;
    app.(projects := Manifest.RefreshVisibility(refreshed, env.manifestDirs))
  }

  /** One message. The process table only ever loses keys, and only on
      `StopTask` and `TaskCompleted`; only `ImportProject`, `StartTask` and
      `StopTask` hand work to the runtime. */
  function Update(app: App, msg: Message, env: Env): (o: Outcome)
    ensures o.app.processes <= app.processes
    ensures o.app.processes != app.processes ==> msg.StopTask? || msg.TaskCompleted?
    ensures o.command != NoCommand ==> msg.ImportProject? || msg.StartTask? || msg.StopTask?
    ensures o.app.projects != app.projects ==>
      !(msg.ImportProject? || msg.SelectTask? || msg.ProjectDragStart? || msg.ProjectDragEnd? || msg.BunReady?)
  {
    match msg
    case ImportProject => Outcome(app, PickManifest)
    case ImportProjectSelected(picked) =>
      if picked.Some? then Outcome(Manifest.ImportProject(app, picked.value, env.manifests), NoCommand)
      else Outcome(app, NoCommand)
    case CreateProject => Outcome(ProjectList.CreateProject(app), NoCommand)
    case RemoveProject(idx) => Outcome(ProjectList.RemoveProject(app, idx), NoCommand)
    case SelectTask(p, t) => Outcome(ProjectList.SelectTask(app, p, t), NoCommand)
    case StartTask(p, t) => TaskControl.StartTask(app, p, t)
    case StopTask(p, t) => TaskControl.StopTask(app, p, t)
    case TaskOutput(p, t, line) => Outcome(TaskControl.TaskOutput(app, p, t, line), NoCommand)
    case TaskCompleted(p, t, success, output) =>
      Outcome(TaskControl.TaskCompleted(app, p, t, success, output), NoCommand)
    case ProjectDragStart(idx) => Outcome(ProjectList.DragStart(app, idx), NoCommand)
    case ProjectDragEnd => Outcome(ProjectList.DragEnd(app), NoCommand)
    case ProjectHovered(to) => Outcome(ProjectList.ProjectHovered(app, to), NoCommand)
    case DividerDragStart => Outcome(app, NoCommand)
    case DividerDragging => Outcome(app, NoCommand)
    case DividerDragEnd => Outcome(app, NoCommand)
    case BunDownloadProgress => Outcome(app, NoCommand)
    case BunReady => Outcome(app.(bunPresent := env.bunCached, bunDownloading := false), NoCommand)
    case FileChanged(path) => Outcome(OnFileChanged(app, path, env), NoCommand)
    case RefreshProjects =>
      Outcome(app.(projects := Manifest.RefreshVisibility(app.projects, env.manifestDirs)), NoCommand)
  }

  /** The state after handling `events` in order, each with the file system
      as it stood when that message was handled. */
  function Run(app: App, events: seq<(Message, Env)>): App
    decreases |events|
  {
    if events == [] then app
    else Run(Update(app, events[0].0, events[0].1).app, events[1..])
  }

  /** No sequence of messages adds a key to the process table. */
  lemma {:induction false} RunNeverAddsProcesses(app: App, events: seq<(Message, Env)>)
    ensures Run(app, events).processes <= app.processes
    decreases |events|
  {
    if events != [] {
      RunNeverAddsProcesses(Update(app, events[0].0, events[0].1).app, events[1..]);
    }
  }

  /** From the start-up state, whose process table is empty, the table stays
      empty: `StopTask` then never has an effect and `RemoveProject` is never
      blocked by a running task. */
  lemma EmptyProcessTableStaysEmpty(app: App, events: seq<(Message, Env)>, p: nat, t: nat, idx: nat, env: Env)
    requires app.processes == {}
    ensures var s := Run(app, events);
      && s.processes == {}
      && Update(s, StopTask(p, t), env) == Outcome(s, NoCommand)
      && (ProjectList.RemovalApplies(s, idx) <==> idx < |s.projects|)
  {
    RunNeverAddsProcesses(app, events);
  }

  /** Process keys are not renumbered when projects move: a completion for
      `(0, 0)` reported after project 0 was dragged to index 1 is recorded on
      the project that now sits at index 0, and the dragged project's task is
      left as it was. */
  lemma CompletionAfterReorderHitsOtherProject(app: App, success: bool, output: seq<string>)
    requires |app.projects| == 2 && app.dragging == Some(0)
    requires ValidTask(app.projects, 0, 0) && ValidTask(app.projects, 1, 0)
    ensures var r := TaskControl.TaskCompleted(ProjectList.ProjectHovered(app, 1), 0, 0, success, output);
      && r.projects[1] == app.projects[0]
      && r.projects[0].name == app.projects[1].name
      && r.projects[0].tasks[0].name == app.projects[1].tasks[0].name
      && r.projects[0].tasks[0].failed == !success
  {
  }

  /** When every parsed manifest's directory is also reported as holding a
      `package.json`, a change to the manifest of the first project in that
      directory leaves that project shown, with its tasks merged from the
      manifest's scripts. */
  lemma FileChangedShowsRefreshedProject(app: App, dir: string, env: Env)
    requires env.manifests.Keys <= env.manifestDirs
    requires dir in env.manifests && env.manifests[dir].scripts.Some?
    requires Manifest.FirstWithPath(app.projects, dir).Some?
    ensures var i := Manifest.FirstWithPath(app.projects, dir).value;
            var r := OnFileChanged(app, FilePath(Some(dir), Some(ManifestFileName)), env);
      && !r.projects[i].hidden
      && r.projects[i].tasks
         == Manifest.MergeScripts(env.manifests[dir].scripts.value, Manifest.ExistingTasks(app.projects[i].tasks))
  {
  }
}
