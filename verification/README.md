# Project manager state machine

A Dafny model of the desktop project manager in `src/main.rs`. The manager
keeps a list of projects. Each project is a directory with a `package.json`,
and each of its scripts is a task that can be started, stopped and watched.
The model covers the message handler `App::update` and the helpers it calls:

- creating, importing, removing, selecting and drag-reordering projects;
- starting, stopping and completing tasks, and appending their output;
- merging a changed `package.json`'s scripts into the existing tasks;
- showing or hiding projects by whether their `package.json` exists.

Each message is one pure function from the application state to the next
state and, where the source returns asynchronous work, a `Command`. The
modules follow the source's structure:

- `Domain` (`domain.dfy`): the records `ProjectTask`, `Project` and `App`, the
  abstract file-system answers (`Env`, `PackageJson`, `FilePath`), the log
  lines the manager writes, and the single-task update `SetTask`.
- `Seqs` (`seqs.dfy`): `Vec::remove`, `Vec::insert` and the remove-then-insert
  move that drag-and-drop performs.
- `Decimal` (`decimal.dfy`): the decimal rendering of `format!("{}", n)` and
  its inverse, used for the names of created projects.
- `TaskControl` (`task_control.dfy`): `start_task_process`,
  `stop_task_process`, `TaskOutput` and `TaskCompleted`.
- `ProjectList` (`project_list.dfy`): `CreateProject`, `RemoveProject`,
  `SelectTask`, the drag messages and `update_selected_after_reorder`.
- `Manifest` (`manifest.dfy`): `refresh_project_tasks`,
  `refresh_project_visibility` and `handle_import`.
- `Update` (`update.dfy`): the `Message` type, `App::update` and runs of
  several messages.

The file system enters only through `Env`. It says whether the cached bun
executable exists, which directories hold a `package.json`, and the parsed
manifest of each directory whose file could be read and parsed. A parsed
manifest is reduced to its `name`, when that is a string, and the keys of
`scripts`, when that is an object. A directory with no entry in `manifests`
stands for a file that could not be read or parsed.

The process table is modelled by its keys only, a `set<(nat, nat)>`. In
`src/main.rs` nothing ever inserts into it: `start_task_process` spawns the
process but never registers a handle. The model keeps that behaviour. It
proves that no message adds a key (`Update.Update`,
`Update.RunNeverAddsProcesses`). So from the empty table the application
starts with, `StopTask` never has an effect and `RemoveProject` is never
blocked (`Update.EmptyProcessTableStaysEmpty`). Keys are not renumbered
when projects are removed or reordered, and the model does not claim they
are. As a consequence, a `TaskCompleted(p, t, …)` that arrives after a
reorder or a removal is recorded on whichever task now sits at `(p, t)`
(`Update.CompletionAfterReorderHitsOtherProject`).

Created projects are numbered by the current length of the list, so two
consecutive creates get different names (`ProjectList.CreatedNamesDiffer`),
but a create, a removal of an earlier project and another create give the
same name twice (`ProjectList.CreatedNameRepeatsAfterRemoval`).

## Model

| member | source | states |
|---|---|---|
| TaskControl.StartTask | src/main.rs:759-785 | Without bun, the first start requests the download and sets the downloading flag, and a later start does nothing more. With bun and an existing task, that task alone becomes running, its log is reset to the single "Starting task" line, and the script is run in the project's directory. With bun and a missing task nothing changes. The process table is never touched. |
| TaskControl.StopTask | src/main.rs:948-967 | Nothing happens unless `(p, t)` is a key of the process table. If it is, the key is removed and a kill is requested. An existing task at `(p, t)` stops running and gains exactly one "stopped" line. Every other task and project is unchanged. |
| TaskControl.TaskOutput | src/main.rs:1034-1040 | A line for an existing task is appended to that task's log only. A line for a missing task is dropped and the state is unchanged. |
| TaskControl.TaskCompleted | src/main.rs:1042-1057 | The key `(p, t)` always leaves the process table. An existing task stops running and is failed exactly when the run did not succeed. Its log becomes the old log, then the captured output, then one final status line. Nothing else changes. |
| Domain.SetTask | src/main.rs:1045-1046 | Writing a task through `get_mut` at an existing `(p, t)` replaces that task only. Every other project and task, and the project's name, path and visibility, are unchanged. |
| TaskControl.StartThenComplete | src/main.rs:1042-1057 | Starting a task and then completing it leaves only that task changed. It is not running, is failed iff the run failed, and its log is the start line, the output and the status line. |
| TaskControl.StopAfterStartKeepsRunning | src/main.rs:759-785 | Starting does not register the process. So stopping a just-started task whose key was not already in the table is a no-op, and the task stays marked running. |
| ProjectList.CreateProject | src/main.rs:989-1004 | With n projects, exactly one project is appended and the first n are untouched. It is named "New Project " followed by n+1 in decimal. It has an empty path, is hidden, and has the single task "Task 1": not running, not failed, one "Task created" line. The selection becomes (n, 0). |
| ProjectList.CreateSelectsNewTask | src/main.rs:1002 | After a create, the selection names an existing task: the new project's "Task 1". |
| ProjectList.CreatedNamesDiffer | src/main.rs:990-992 | Two projects created one after the other get different names. |
| ProjectList.CreatedNameRepeatsAfterRemoval | src/main.rs:989-1020 | A create, a removal of project 0 and a second create give the last two projects the same name. |
| ProjectList.RemoveProject | src/main.rs:1006-1020 | Nothing changes unless `idx` is in range and no process key has first component `idx`. If removal applies, exactly element `idx` goes and the rest keep their order. A selection on `idx` is cleared, one above it is decremented and one below it is kept. Nothing else changes. |
| ProjectList.HasRunningTasks | src/main.rs:353-355 | Holds exactly when some task of the project has a key in the process table, and never for an empty table. |
| ProjectList.RemoveKeepsSelectedProject | src/main.rs:1010-1016 | After a removal, an in-range selection is cleared iff it was on the removed project. Otherwise it still names the same project, with the same task index. |
| ProjectList.RemoveUndoesCreate | src/main.rs:989-1020 | Removing the project just created restores the project list and leaves no selection. |
| ProjectList.SelectTask | src/main.rs:1022-1024 | The selection becomes `(p, t)` with no range check, and nothing else changes. |
| ProjectList.DragStart | src/main.rs:1059-1061 | The dragged index is recorded unchecked, and nothing else changes. |
| ProjectList.DragEnd | src/main.rs:1063-1065 | The drag is forgotten, and nothing else changes. |
| ProjectList.RemapAfterMove | src/main.rs:747-752 | Only the moved index lands on `to`. Indices below both or above both `from` and `to` stay, and every other index moves by at most one. |
| ProjectList.SelectionAfterMove | src/main.rs:744-756 | A selection stays present or absent and keeps its task index. A selection on a project of the list before the move still names that project in the moved list, at an in-range index. |
| ProjectList.RemapTracksMove | src/main.rs:744-756 | The selection remap is the position map of the move. Every element is found at its remapped index, every remapped index is in range, and distinct indices stay distinct. |
| ProjectList.RemapBackRestores | src/main.rs:744-756 | The remap for moving from `to` back to `from` undoes the remap for moving from `from` to `to`. |
| ProjectList.ProjectHovered | src/main.rs:1067-1081 | The state changes iff a drag from an in-range index other than `to` is in progress and `to` is in range. In that case the project list is the move of `from` to `to`, the selection is remapped, the drag continues from `to`, and nothing else changes. |
| ProjectList.ReorderKeepsSelectedProject | src/main.rs:1073-1077 | After a reorder, an in-range selection names the same project as before, with the same task index. |
| ProjectList.ReorderBackRestores | src/main.rs:1067-1081 | Hovering over `to` and then back over the old index restores the list, the selection and the drag origin. |
| Seqs.Move | src/main.rs:1073-1074 | Removing the element at `from` and inserting it at `to` keeps the length and the multiset. It puts the old `from` element at `to` and shifts the elements between by one. Elements outside the range stay in place. |
| Seqs.MoveBackRestores | src/main.rs:1073-1074 | Moving an element and moving it back restores the sequence. |
| Seqs.Remove | src/main.rs:1008 | `Vec::remove` drops exactly the element at the index, and later elements shift down by one. |
| Seqs.Insert | src/main.rs:1074 | `Vec::insert` puts the element at the index, keeps the elements before it, shifts later ones up by one, and adds the element to the multiset. |
| Decimal.ParseNatToString | src/main.rs:992 | The decimal numeral used in new project names parses back to the number it renders. |
| Decimal.NatToStringInjective | src/main.rs:992 | Different numbers render as different numerals. |
| Decimal.NatToString | src/main.rs:992 | The rendering of `format!("{}", n)` is non-empty, all digits, and has no leading zero unless it is "0". |
| Manifest.ExistingTasksStep | src/main.rs:377-381 | Inserting the last task's entry into the table of the tasks before it gives the table of all the tasks, with the later entry replacing an earlier one of the same name. |
| Manifest.ExistingTasks | src/main.rs:377-381 | The table's keys are exactly the names of the old tasks. Each name maps to the run state and log of the last task with that name, as a `HashMap` collect keeps the last insert. |
| Manifest.MergeScripts | src/main.rs:383-397 | There is one task per script name, in order, and none is failed. Each task's running flag and log either come from an entry of the old-task table or are the fresh state: not running, with one "ready" line. |
| Manifest.MergeTakesExistingState | src/main.rs:385-388 | For distinct script names, a name in the old-task table takes that entry's running flag and log, and any other name gets the fresh state. |
| Manifest.FreshTasksIsEmptyMerge | src/main.rs:718-731 | The tasks an import creates equal a refresh merge against an empty table. |
| Manifest.FreshTasks | src/main.rs:718-731 | One task per script, in order, each not running, not failed, with the single "ready" line. |
| Manifest.FirstWithPath | src/main.rs:369-370 | The result is the first project whose path equals the directory, or none when no project has it. |
| Manifest.RefreshProjectTasks | src/main.rs:366-409 | Only the first project in the directory is touched, and only when its manifest parsed. That project is shown. Its tasks are rebuilt by the merge when `scripts` is an object and kept otherwise. Its name and path are kept, and all other projects are unchanged. |
| Manifest.RefreshMergesByName | src/main.rs:376-400 | For distinct script names, the refreshed tasks are named by the scripts in order and none is failed. An old name keeps its task's running flag and log. A new name is not running and has one "ready" line. |
| Manifest.ImportedTableIsFresh | src/main.rs:377-381 | The old-task table built from an import's tasks maps each of the distinct script names to the fresh state. |
| Manifest.RefreshAfterImportIsStable | src/main.rs:383-397 | Refreshing an imported project from the same distinct scripts leaves its tasks as they were. |
| Manifest.RefreshVisibility | src/main.rs:358-363 | Every project is hidden exactly when its directory holds no `package.json`, and nothing else about it changes. |
| Manifest.RefreshVisibilityIdempotent | src/main.rs:358-363 | A second visibility refresh against the same file system changes nothing. |
| Manifest.ImportProject | src/main.rs:699-741 | A picked file named `package.json` whose content parsed appends one visible project and leaves the earlier ones untouched. It takes the manifest's name or "Unknown Project", the file's directory, and one fresh task per script (none when `scripts` is not an object). Any other file changes nothing, and the selection is kept. |
| Manifest.ImportedProject | src/main.rs:718-738 | The imported project takes the manifest name or "Unknown Project", the directory, and is shown. Its tasks are named by the scripts in order, each not running, not failed, with one "ready" line, and there are none without a `scripts` object. |
| Update.OnFileChanged | src/main.rs:1106-1113 | Only tasks and visibility can change. Each project ends hidden exactly when its directory has no `package.json`. A path that is not a `package.json` changes no tasks. For a `package.json` path, only the first project in its directory can get new tasks, and only when its manifest parsed with a `scripts` object: they are the merge of the scripts with its old tasks. Every other project keeps its tasks. |
| Update.Update | src/main.rs:970-1121 | No message adds a process key, and only `StopTask` and `TaskCompleted` remove one. Only `ImportProject`, `StartTask` and `StopTask` return work for the runtime. `ImportProject`, `SelectTask`, the drag start and end, and `BunReady` leave the project list alone. |
| Update.RunNeverAddsProcesses | src/main.rs:970-1121 | After any sequence of messages, the process table is a subset of the one before. |
| Update.EmptyProcessTableStaysEmpty | src/main.rs:275 | From the empty table of start-up, the table stays empty. `StopTask` is then a no-op, and `RemoveProject` applies exactly to in-range indices. |
| Update.CompletionAfterReorderHitsOtherProject | src/main.rs:1042-1057 | With two projects, a completion for `(0, 0)` after project 0 is dragged to index 1 lands on the other project's first task, and the dragged project is unchanged. |
| Update.FileChangedShowsRefreshedProject | src/main.rs:1106-1113 | Suppose every parsed manifest's directory is reported as holding a `package.json`. Then the `FileChanged` handler, given a change to the manifest of the first project in a directory leaves that project shown, with its tasks merged from the scripts. |

## Left out

- Rendering (`view`, `left_pane`, `central_pane`, `divider` and the widget helpers): user interface only.
- The file-watcher subscription and its debouncer: threads, channels and OS notifications. Their output, `FileChanged` and `RefreshProjects` messages, is modelled.
- Downloading and unpacking bun, and `get_bun_path`: network and file system work. `BunReady` reads the result from `Env.bunCached`.
- Spawning, output capture and killing of processes: asynchronous subprocess I/O. They appear only as the `RunScript`, `DownloadBun` and `KillProcess` commands.
- Saving and loading the configuration with `confy`, and `App::default`: persistence. Start-up enters only as the empty process table assumed by `Update.EmptyProcessTableStaysEmpty`.
- JSON parsing and the file dialog: replaced by the abstract `PackageJson` and `FilePath` values. A `package.json` that cannot be read and one that cannot be parsed are the same missing entry of `Env.manifests`.
- `Manifest.ImportProject`: the picked file's content is looked up by its directory (`parent`, or `""` when absent) rather than by the full path. The two name the same file whenever the file name is `package.json`.
- `Path::file_name`, `Path::parent` and `to_string_lossy`: a path is reduced to its optional parent and file name, and directories are plain strings compared for equality.
- The divider drag and the width clamp, and the download progress value: floating-point panel layout. These messages leave the modelled state unchanged.
- `usize` indices are modelled as `nat`. The only arithmetic on them (`n + 1`, `idx - 1` under `idx > from`, `idx + 1` under `idx < from`, `proj - 1` under `proj > idx`) cannot wrap.
- Duplicate script names: JSON object keys are unique, so the exact-state part of `Manifest.MergeScripts` and `Manifest.RefreshMergesByName` is stated for distinct names. The merge itself follows the source's remove-on-use semantics for any list.
- No code in `src/main.rs` sends `TaskOutput`, because output is delivered all at once in `TaskCompleted`. The handler is modelled as written.
