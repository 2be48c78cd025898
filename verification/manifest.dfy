/** Reading `package.json`: importing a project from it, merging its scripts
    into an existing project's tasks when the file changes, and showing or
    hiding projects by whether the file exists. The file system and the JSON
    parser are abstracted to the `PackageJson` and `Env` values of `Domain`. */
module Manifest {
  import opened Domain
  import opened Seqs

  /** The part of a task that survives a refresh of its project's scripts. */
  datatype TaskState = TaskState(running: bool, logs: seq<string>)

  function FreshState(name: string): TaskState {
    TaskState(false, [ReadyLine(name)])
  }

  /** No later task in `tasks` has the name of the task at `i`. */
  ghost predicate LastWithName(tasks: seq<ProjectTask>, i: nat)
    requires i < |tasks|
  {
    forall j :: i < j < |tasks| ==> tasks[j].name != tasks[i].name
  }

  /** The name-to-state table built from the old tasks. Built like the
      source's `HashMap` `collect`: when two tasks share a name, the later
      one's state is the one kept. */
  function ExistingTasks(tasks: seq<ProjectTask>): (m: map<string, TaskState>)
    ensures m.Keys == set t | t in tasks :: t.name
    ensures forall i :: 0 <= i < |tasks| && LastWithName(tasks, i) ==>
              m[tasks[i].name] == TaskState(tasks[i].running, tasks[i].logs)
    decreases |tasks|
  {
    if tasks == [] then map[]
    else
      var m := ExistingTasks(tasks[..|tasks| - 1]);
      ExistingTasksStep(tasks, tasks[..|tasks| - 1], m);
      m[tasks[|tasks| - 1].name := TaskState(tasks[|tasks| - 1].running, tasks[|tasks| - 1].logs)]
  }

  /** One insert of the collect: adding the entry of the last task to the
      table of the tasks before it gives the table of all of them. */
  lemma ExistingTasksStep(tasks: seq<ProjectTask>, prefix: seq<ProjectTask>, m: map<string, TaskState>)
    requires |tasks| > 0 && prefix == tasks[..|tasks| - 1]
    requires m.Keys == set t | t in prefix :: t.name
    requires forall i :: 0 <= i < |prefix| && LastWithName(prefix, i) ==>
               m[prefix[i].name] == TaskState(prefix[i].running, prefix[i].logs)
    ensures var last := tasks[|tasks| - 1];
            var r := m[last.name := TaskState(last.running, last.logs)];
      && r.Keys == (set t | t in tasks :: t.name)
      && forall i :: 0 <= i < |tasks| && LastWithName(tasks, i) ==>
           r[tasks[i].name] == TaskState(tasks[i].running, tasks[i].logs)
  {
    var n := |tasks| - 1;
    var last := tasks[n];
    var r := m[last.name := TaskState(last.running, last.logs)];
    assert tasks == prefix + [last];
    assert forall t :: t in tasks <==> t in prefix || t == last;
    forall i | 0 <= i < |tasks| && LastWithName(tasks, i)
      ensures r[tasks[i].name] == TaskState(tasks[i].running, tasks[i].logs)
    {
      if i < n {
        assert tasks[i] == prefix[i];
        forall j | i < j < n
          ensures prefix[j].name != prefix[i].name
        {
          assert tasks[j] == prefix[j];
        }
        assert LastWithName(prefix, i);
      }
    }
  }

  /** The new task list of a refresh: one task per script name, in order.
      A name still in the table takes (and removes) its old state, any other
      name starts fresh; no task is failed afterwards. */
  function MergeScripts(scripts: seq<string>, existing: map<string, TaskState>): (r: seq<ProjectTask>)
    ensures |r| == |scripts|
    ensures forall i :: 0 <= i < |r| ==> r[i].name == scripts[i] && !r[i].failed
    ensures forall i :: 0 <= i < |r| ==>
      TaskState(r[i].running, r[i].logs) in existing.Values || TaskState(r[i].running, r[i].logs) == FreshState(scripts[i])
    decreases |scripts|
  {
    if scripts == [] then []
    else
      var name := scripts[0];
      var state := if name in existing then existing[name] else FreshState(name);
      var rest := MergeScripts(scripts[1..], existing - {name});
      var r := [ProjectTask(name, state.running, state.logs, false)] + rest;
      assert (existing - {name}).Values <= existing.Values;
      assert forall i :: 1 <= i < |r| ==> r[i] == rest[i - 1] && scripts[i] == scripts[1..][i - 1];
      r
  }

  /** With distinct script names, every name found in the table takes its
      old state and every other name starts fresh. */
  lemma {:induction false} MergeTakesExistingState(scripts: seq<string>, existing: map<string, TaskState>)
    requires Distinct(scripts)
    ensures var r := MergeScripts(scripts, existing);
      forall i :: 0 <= i < |r| ==>
        TaskState(r[i].running, r[i].logs)
        == (if scripts[i] in existing then existing[scripts[i]] else FreshState(scripts[i]))
    decreases |scripts|
  {
    if scripts != [] {
      var name := scripts[0];
      var smaller := existing - {name};
      var rest := MergeScripts(scripts[1..], smaller);
      assert Distinct(scripts[1..]);
      MergeTakesExistingState(scripts[1..], smaller);
      var r := MergeScripts(scripts, existing);
      forall i | 1 <= i < |r|
        ensures TaskState(r[i].running, r[i].logs)
                == (if scripts[i] in existing then existing[scripts[i]] else FreshState(scripts[i]))
      {
        assert r[i] == rest[i - 1];
        assert scripts[i] == scripts[1..][i - 1];
        assert scripts[i] != name;
      }
    }
  }

  /** The tasks an import creates: one fresh task per script name. */
  function FreshTasks(scripts: seq<string>): (r: seq<ProjectTask>)
    ensures |r| == |scripts|
    ensures forall i :: 0 <= i < |r| ==> r[i] == ProjectTask(scripts[i], false, [ReadyLine(scripts[i])], false)
  {
    seq(|scripts|, i requires 0 <= i < |scripts| => ProjectTask(scripts[i], false, [ReadyLine(scripts[i])], false))
  }

  /** Import and refresh agree on a project with no tasks yet. */
  lemma FreshTasksIsEmptyMerge(scripts: seq<string>)
    ensures FreshTasks(scripts) == MergeScripts(scripts, map[])
    decreases |scripts|
  {
  }

  /** The index of the first project whose directory is `dir`. */
  function FirstWithPath(ps: seq<Project>, dir: string): (r: Option<nat>)
    ensures r.None? <==> forall k :: 0 <= k < |ps| ==> ps[k].path != dir
    ensures r.Some? ==>
      && r.value < |ps|
      && ps[r.value].path == dir
      && forall k :: 0 <= k < r.value ==> ps[k].path != dir
    decreases |ps|
  {
    if ps == [] then None
    else if ps[0].path == dir then Some(0)
    else
      match FirstWithPath(ps[1..], dir)
      case None => None
      case Some(i) => Some(i + 1)
  }

  /** `refresh_project_tasks(dir)`: only the first project in `dir` is touched,
      and only when its `package.json` parsed. Its tasks are then rebuilt from
      the scripts when `scripts` is an object, and it is shown in any case. */
  function RefreshProjectTasks(ps: seq<Project>, dir: string, manifest: Option<PackageJson>): (r: seq<Project>)
    ensures |r| == |ps|
    ensures FirstWithPath(ps, dir).None? || manifest.None? ==> r == ps
    ensures FirstWithPath(ps, dir).Some? && manifest.Some? ==>
      var i := FirstWithPath(ps, dir).value;
      && (forall k :: 0 <= k < |ps| && k != i ==> r[k] == ps[k])
      && r[i].name == ps[i].name
      && r[i].path == ps[i].path
      && !r[i].hidden
      && (manifest.value.scripts.None? ==> r[i].tasks == ps[i].tasks)
      && (manifest.value.scripts.Some? ==>
            r[i].tasks == MergeScripts(manifest.value.scripts.value, ExistingTasks(ps[i].tasks)))
  {
    match FirstWithPath(ps, dir)
    case None => ps
    case Some(i) =>
      match manifest
      case None => ps
      case Some(m) =>
        var tasks :=
          match m.scripts
          case None => ps[i].tasks
          case Some(scripts) => MergeScripts(scripts, ExistingTasks(ps[i].tasks));
        ps[i := ps[i].(tasks := tasks, hidden := false)]
  }

  /** After a refresh with distinct script names, the project's tasks are
      named by the scripts in order; a name that was already a task keeps that
      task's run state and log (the last such task when several shared it);
      a new name starts not running with one "ready" line; none is failed. */
  lemma RefreshMergesByName(ps: seq<Project>, dir: string, m: PackageJson)
    requires FirstWithPath(ps, dir).Some? && m.scripts.Some? && Distinct(m.scripts.value)
    ensures var i := FirstWithPath(ps, dir).value;
            var scripts := m.scripts.value;
            var tasks := RefreshProjectTasks(ps, dir, Some(m))[i].tasks;
      && |tasks| == |scripts|
      && (forall k :: 0 <= k < |tasks| ==> tasks[k].name == scripts[k] && !tasks[k].failed)
      && (forall k, j ::
            0 <= k < |tasks| && 0 <= j < |ps[i].tasks| && ps[i].tasks[j].name == scripts[k] && LastWithName(ps[i].tasks, j)
            ==> tasks[k].running == ps[i].tasks[j].running && tasks[k].logs == ps[i].tasks[j].logs)
      && (forall k :: 0 <= k < |tasks| && (forall j :: 0 <= j < |ps[i].tasks| ==> ps[i].tasks[j].name != scripts[k]) ==>
            !tasks[k].running && tasks[k].logs == [ReadyLine(scripts[k])])
  {
    var i := FirstWithPath(ps, dir).value;
    var existing := ExistingTasks(ps[i].tasks);
    var tasks := RefreshProjectTasks(ps, dir, Some(m))[i].tasks;
    var scripts := m.scripts.value;
    MergeTakesExistingState(scripts, existing);
    forall k | 0 <= k < |tasks| && (forall j :: 0 <= j < |ps[i].tasks| ==> ps[i].tasks[j].name != scripts[k])
      ensures !tasks[k].running && tasks[k].logs == [ReadyLine(scripts[k])]
    {
      assert scripts[k] !in existing;
    }
  }

  /** The table built from imported tasks maps each of the distinct script
      names to a fresh state. */
  lemma ImportedTableIsFresh(scripts: seq<string>)
    requires Distinct(scripts)
    ensures var existing := ExistingTasks(FreshTasks(scripts));
      forall k :: 0 <= k < |scripts| ==> scripts[k] in existing && existing[scripts[k]] == FreshState(scripts[k])
  {
  }

  /** Refreshing a freshly imported project from the same scripts changes
      none of its tasks. */
  lemma RefreshAfterImportIsStable(scripts: seq<string>)
    requires Distinct(scripts)
    ensures MergeScripts(scripts, ExistingTasks(FreshTasks(scripts))) == FreshTasks(scripts)
  {
    var existing := ExistingTasks(FreshTasks(scripts));
    ImportedTableIsFresh(scripts);
    MergeTakesExistingState(scripts, existing);
  }

  /** `refresh_project_visibility`: every project is hidden exactly when its
      directory holds no `package.json`; nothing else changes. */
  function RefreshVisibility(ps: seq<Project>, manifestDirs: set<string>): (r: seq<Project>)
    ensures |r| == |ps|
    ensures forall i :: 0 <= i < |ps| ==> r[i] == ps[i].(hidden := ps[i].path !in manifestDirs)
  {
    seq(|ps|, i requires 0 <= i < |ps| => ps[i].(hidden := ps[i].path !in manifestDirs))
  }

  /** A second visibility refresh against the same file system changes nothing. */
  lemma RefreshVisibilityIdempotent(ps: seq<Project>, manifestDirs: set<string>)
    ensures RefreshVisibility(RefreshVisibility(ps, manifestDirs), manifestDirs) == RefreshVisibility(ps, manifestDirs)
  {
  }

  /** The project an import of a parsed `package.json` in `dir` appends. */
  function ImportedProject(dir: string, m: PackageJson): (r: Project)
    ensures r.name == (if m.name.Some? then m.name.value else UnknownProjectName)
    ensures r.path == dir && !r.hidden
    ensures m.scripts.None? ==> r.tasks == []
    ensures m.scripts.Some? ==>
      && |r.tasks| == |m.scripts.value|
      && forall k :: 0 <= k < |r.tasks| ==>
           && r.tasks[k].name == m.scripts.value[k]
           && !r.tasks[k].running && !r.tasks[k].failed
           && r.tasks[k].logs == [ReadyLine(m.scripts.value[k])]
  {
    Project(m.name.GetOr(UnknownProjectName), dir,
            match m.scripts
            case None => []
            case Some(scripts) => FreshTasks(scripts),
            false)
  }

  /** `handle_import`: a picked file named `package.json` whose content parsed
      appends one visible project, named by the manifest (or "Unknown
      Project"), living in the file's directory, with one fresh task per
      script. Any other file, or one that did not parse, changes nothing. The
      selection is left alone and an existing project in the same directory
      is not detected. */
  function ImportProject(app: App, path: FilePath, manifests: map<string, PackageJson>): (r: App)
    ensures r == app.(projects := r.projects)
    ensures path.fileName != Some(ManifestFileName) || path.parent.GetOr("") !in manifests ==> r == app
    ensures path.fileName == Some(ManifestFileName) && path.parent.GetOr("") in manifests ==>
      var dir := path.parent.GetOr("");
      var m := manifests[dir];
      && |r.projects| == |app.projects| + 1
      && r.projects[..|app.projects|] == app.projects
      && r.projects[|app.projects|].name == (if m.name.Some? then m.name.value else UnknownProjectName)
      && r.projects[|app.projects|].path == dir
      && !r.projects[|app.projects|].hidden
      && (m.scripts.None? ==> r.projects[|app.projects|].tasks == [])
      && (m.scripts.Some? ==>
            var tasks := r.projects[|app.projects|].tasks;
            && |tasks| == |m.scripts.value|
            && forall k :: 0 <= k < |tasks| ==>
                 tasks[k] == ProjectTask(m.scripts.value[k], false, [ReadyLine(m.scripts.value[k])], false))
  {
    var dir := path.parent.GetOr("");
    if path.fileName != Some(ManifestFileName) || dir !in manifests then app
    else
      var projects := app.projects + [ImportedProject(dir, manifests[dir])];
      assert projects[..|app.projects|] == app.projects;
      app.(projects := projects)
  }
}
