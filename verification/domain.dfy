/** The state of the project manager: projects of `package.json` scripts, the
    task selection, the drag in progress and the table of running processes,
    plus the log lines the manager writes and the effects it asks for. */
module Domain {

  datatype Option<T> = None | Some(value: T) {
    function GetOr(default: T): T {
      if Some? then value else default
    }
  }

  /** One script of a project. `running` and `logs` are transient; `failed`
      is remembered across sessions. */
  datatype ProjectTask = ProjectTask(name: string, running: bool, logs: seq<string>, failed: bool)

  /** A project: a directory holding a `package.json`, shown with its scripts.
      `hidden` is set while the directory has no `package.json`. */
  datatype Project = Project(name: string, path: string, tasks: seq<ProjectTask>, hidden: bool)

  /** The application state. `processes` holds the (project, task) keys of
      the process table; the handles themselves are not modelled. `bunPresent`
      says whether the cached bun executable was found. */
  datatype App = App(
    projects: seq<Project>,
    selected: Option<(nat, nat)>,
    dragging: Option<nat>,
    processes: set<(nat, nat)>,
    bunPresent: bool,
    bunDownloading: bool)

  /** What a parsed `package.json` contributes: its `name` when it is a
      string, and the keys of `scripts` when that is an object. */
  datatype PackageJson = PackageJson(name: Option<string>, scripts: Option<seq<string>>)

  /** A file system path, reduced to its parent directory and file name. */
  datatype FilePath = FilePath(parent: Option<string>, fileName: Option<string>)

  /** What the file system answers at the moment a message is handled:
      whether the cached bun executable exists, which directories hold a
      `package.json`, and the parsed `package.json` of each directory whose
      file could be read and parsed. */
  datatype Env = Env(bunCached: bool, manifestDirs: set<string>, manifests: map<string, PackageJson>)

  /** The asynchronous work an update hands back to the runtime. */
  datatype Command =
    | NoCommand
    | PickManifest
    | DownloadBun
    | RunScript(project: nat, task: nat, dir: string, script: string)
    | KillProcess(project: nat, task: nat)

  datatype Outcome = Outcome(app: App, command: Command)

  const ManifestFileName: string := "package.json"
  const UnknownProjectName: string := "Unknown Project"
  const NewProjectPrefix: string := "New Project "
  const FirstTaskName: string := "Task 1"
  const TaskCreatedLine: string := "[INFO] Task created"

  function ReadyLine(name: string): string {
    "[INFO] Task '" + name + "' ready"
  }

  function StartingLine(name: string): string {
    "[INFO] Starting task '" + name + "'..."
  }

  function StoppedLine(name: string): string {
    "[INFO] Task '" + name + "' stopped"
  }

  function FinishedLine(name: string, success: bool): string {
    "[INFO] Task '" + name + "' " + (if success then "completed successfully" else "failed")
  }

  /** `p` names a project and `t` one of its tasks. */
  predicate ValidTask(ps: seq<Project>, p: nat, t: nat) {
    p < |ps| && t < |ps[p].tasks|
  }

  /** `r` equals `ps` except possibly for task `t` of project `p`, which keeps its name. */
  ghost predicate OnlyTaskChanged(ps: seq<Project>, r: seq<Project>, p: nat, t: nat) {
    && ValidTask(ps, p, t)
    && |r| == |ps|
    && (forall i :: 0 <= i < |ps| && i != p ==> r[i] == ps[i])
    && r[p].name == ps[p].name
    && r[p].path == ps[p].path
    && r[p].hidden == ps[p].hidden
    && |r[p].tasks| == |ps[p].tasks|
    && (forall j :: 0 <= j < |ps[p].tasks| && j != t ==> r[p].tasks[j] == ps[p].tasks[j])
    && r[p].tasks[t].name == ps[p].tasks[t].name
  }

  /** Replaces task `t` of project `p`, the `get_mut` write-back of the source. */
  function SetTask(ps: seq<Project>, p: nat, t: nat, task: ProjectTask): (r: seq<Project>)
    requires ValidTask(ps, p, t)
    requires task.name == ps[p].tasks[t].name
    ensures OnlyTaskChanged(ps, r, p, t)
    ensures r[p].tasks[t] == task
  {
    ps[p := ps[p].(tasks := ps[p].tasks[t := task])]
  }
}
