/** The state edits of running a script: starting it, streaming output into
    it, stopping it and recording its completion. Spawning and killing the
    process are the runtime's business and appear only as commands. */
module TaskControl {
  import opened Domain

  /** `StartTask` for `(p, t)`: without bun, ask once for the download; with
      bun and a real task, mark it running, reset its log to the one start
      line and ask the runtime to run the script in the project directory.
      The process table is left alone: the handle is never registered. */
  function StartTask(app: App, p: nat, t: nat): (o: Outcome)
    ensures o.app.processes == app.processes
    ensures !app.bunPresent ==>
      && o.app == app.(bunDownloading := true)
      && o.command == (if app.bunDownloading then NoCommand else DownloadBun)
    ensures app.bunPresent && !ValidTask(app.projects, p, t) ==> o == Outcome(app, NoCommand)
    ensures app.bunPresent && ValidTask(app.projects, p, t) ==>
      var task := app.projects[p].tasks[t];
      && OnlyTaskChanged(app.projects, o.app.projects, p, t)
      && o.app.projects[p].tasks[t] == task.(running := true, logs := [StartingLine(task.name)])
      && o.app == app.(projects := o.app.projects)
      && o.command == RunScript(p, t, app.projects[p].path, task.name)
  {
    if !app.bunPresent then
      if !app.bunDownloading then Outcome(app.(bunDownloading := true), DownloadBun)
      else Outcome(app, NoCommand)
    else if !ValidTask(app.projects, p, t) then
      Outcome(app, NoCommand)
    else
      var task := app.projects[p].tasks[t];
      var started := task.(running := true, logs := [StartingLine(task.name)]);
      Outcome(app.(projects := SetTask(app.projects, p, t, started)), RunScript(p, t, app.projects[p].path, task.name))
  }

  /** `StopTask` for `(p, t)`: only a key in the process table has an effect.
      The key is dropped, the task (if it still exists at that position) stops
      running and logs one line, and the runtime is asked to kill the process. */
  function StopTask(app: App, p: nat, t: nat): (o: Outcome)
    ensures (p, t) !in app.processes ==> o == Outcome(app, NoCommand)
    ensures (p, t) in app.processes ==>
      && o.command == KillProcess(p, t)
      && o.app.processes == app.processes - {(p, t)}
      && o.app == app.(projects := o.app.projects, processes := o.app.processes)
    ensures (p, t) in app.processes && !ValidTask(app.projects, p, t) ==> o.app.projects == app.projects
    ensures (p, t) in app.processes && ValidTask(app.projects, p, t) ==>
      var task := app.projects[p].tasks[t];
      && OnlyTaskChanged(app.projects, o.app.projects, p, t)
      && o.app.projects[p].tasks[t] == task.(running := false, logs := task.logs + [StoppedLine(task.name)])
  {
    if (p, t) !in app.processes then
      Outcome(app, NoCommand)
    else
      var projects :=
        if ValidTask(app.projects, p, t) then
          var task := app.projects[p].tasks[t];
          SetTask(app.projects, p, t, task.(running := false, logs := task.logs + [StoppedLine(task.name)]))
        else app.projects;
      Outcome(app.(projects := projects, processes := app.processes - {(p, t)}), KillProcess(p, t))
  }

  /** One line of output for `(p, t)`; dropped when the task does not exist. */
  function TaskOutput(app: App, p: nat, t: nat, line: string): (r: App)
    ensures r == app.(projects := r.projects)
    ensures !ValidTask(app.projects, p, t) ==> r == app
    ensures ValidTask(app.projects, p, t) ==>
      var task := app.projects[p].tasks[t];
      && OnlyTaskChanged(app.projects, r.projects, p, t)
      && r.projects[p].tasks[t] == task.(logs := task.logs + [line])
  {
    if ValidTask(app.projects, p, t) then
      var task := app.projects[p].tasks[t];
      app.(projects := SetTask(app.projects, p, t, task.(logs := task.logs + [line])))
    else app
  }

  /** Completion of `(p, t)`: the key leaves the process table in every case;
      a task that exists stops running, is marked failed exactly when the run
      did not succeed, and gains the captured output and one status line. */
  function TaskCompleted(app: App, p: nat, t: nat, success: bool, output: seq<string>): (r: App)
    ensures r.processes == app.processes - {(p, t)}
    ensures r == app.(projects := r.projects, processes := r.processes)
    ensures !ValidTask(app.projects, p, t) ==> r.projects == app.projects
    ensures ValidTask(app.projects, p, t) ==>
      var task := app.projects[p].tasks[t];
      && OnlyTaskChanged(app.projects, r.projects, p, t)
      && r.projects[p].tasks[t]
         == ProjectTask(task.name, false, task.logs + output + [FinishedLine(task.name, success)], !success)
  {
    var projects :=
      if ValidTask(app.projects, p, t) then
        var task := app.projects[p].tasks[t];
        var done := task.(running := false, failed := !success,
                          logs := task.logs + output + [FinishedLine(task.name, success)]);
        SetTask(app.projects, p, t, done)
      else app.projects;
    app.(projects := projects, processes := app.processes - {(p, t)})
  }

  /** A run that is started and later reported complete leaves the task
      stopped, failed exactly when the run failed, and its log holds the start
      line, the captured output and the status line, in that order. */
  lemma StartThenComplete(app: App, p: nat, t: nat, success: bool, output: seq<string>)
    requires app.bunPresent && ValidTask(app.projects, p, t)
    ensures var task := app.projects[p].tasks[t];
            var r := TaskCompleted(StartTask(app, p, t).app, p, t, success, output);
            && OnlyTaskChanged(app.projects, r.projects, p, t)
            && r.projects[p].tasks[t]
               == ProjectTask(task.name, false, [StartingLine(task.name)] + output + [FinishedLine(task.name, success)], !success)
  {
  }

  /** Because starting never registers a process, stopping a task that was
      just started changes nothing when its key was not already in the
      process table: the task stays marked running. */
  lemma StopAfterStartKeepsRunning(app: App, p: nat, t: nat)
    requires app.bunPresent && ValidTask(app.projects, p, t)
    requires (p, t) !in app.processes
    ensures var started := StartTask(app, p, t).app;
            && StopTask(started, p, t) == Outcome(started, NoCommand)
            && started.projects[p].tasks[t].running
  {
  }
}
