/** Editing the list of projects: creating, removing, selecting, and
    reordering by drag and drop, with the selection following its project. */
module ProjectList {
  import opened Domain
  import opened Seqs
  import Decimal

  /** Some key of the process table belongs to project `p`: some task of
      `p` has a registered process. */
  predicate HasRunningTasks(processes: set<(nat, nat)>, p: nat): (b: bool)
    ensures b <==> exists t: nat :: (p, t) in processes
    ensures processes == {} ==> !b
  {
    exists key :: key in processes && key.0 == p
  }

  /** `CreateProject`: appends a hidden project with no directory and one
      fresh task, numbered after the current length, and selects that task. */
  function CreateProject(app: App): (r: App)
    ensures |r.projects| == |app.projects| + 1
    ensures r.projects[..|app.projects|] == app.projects
    ensures var q := r.projects[|app.projects|];
      && q.name == NewProjectPrefix + Decimal.NatToString(|app.projects| + 1)
      && q.path == ""
      && q.hidden
      && q.tasks == [ProjectTask(FirstTaskName, false, [TaskCreatedLine], false)]
    ensures r.selected.Some? && r.selected.value == (|app.projects|, 0)
    ensures r == app.(projects := r.projects, selected := r.selected)
  {
    var n := |app.projects|;
    var project := Project(NewProjectPrefix + Decimal.NatToString(n + 1), "",
                           [ProjectTask(FirstTaskName, false, [TaskCreatedLine], false)], true);
    assert (app.projects + [project])[..n] == app.projects;
    app.(projects := app.projects + [project], selected := Some((n, 0)))
  }

  /** After `CreateProject` the selection names an existing task: the new one. */
  lemma CreateSelectsNewTask(app: App)
    ensures var r := CreateProject(app);
      && r.selected.Some?
      && ValidTask(r.projects, r.selected.value.0, r.selected.value.1)
      && r.projects[r.selected.value.0].tasks[r.selected.value.1].name == FirstTaskName
  {
  }

  /** Two projects created one after the other get different names. */
  lemma CreatedNamesDiffer(app: App)
    ensures var r := CreateProject(CreateProject(app));
      r.projects[|app.projects|].name != r.projects[|app.projects| + 1].name
  {
    var n := |app.projects|;
    var r1 := CreateProject(app);
    var r := CreateProject(r1);
    assert r.projects[n] == r1.projects[n];
    if r.projects[n].name == r.projects[n + 1].name {
      var a := Decimal.NatToString(n + 1);
      var b := Decimal.NatToString(n + 2);
      assert NewProjectPrefix + a == NewProjectPrefix + b;
      assert a == (NewProjectPrefix + a)[|NewProjectPrefix|..];
      assert b == (NewProjectPrefix + b)[|NewProjectPrefix|..];
      Decimal.NatToStringInjective(n + 1, n + 2);
    }
  }

  /** `RemoveProject(idx)` takes effect only for an existing project without
      a key in the process table. */
  predicate RemovalApplies(app: App, idx: nat) {
    idx < |app.projects| && !HasRunningTasks(app.processes, idx)
  }

  /** `RemoveProject(idx)`: drops the project and repairs the selection. A
      selection on the removed project is cleared, one above it moves down,
      one below it stays. Keys of the process table are not renumbered. */
  function RemoveProject(app: App, idx: nat): (r: App)
    ensures !RemovalApplies(app, idx) ==> r == app
    ensures RemovalApplies(app, idx) ==>
      && |r.projects| == |app.projects| - 1
      && (forall k :: 0 <= k < idx ==> r.projects[k] == app.projects[k])
      && (forall k :: idx <= k < |r.projects| ==> r.projects[k] == app.projects[k + 1])
      && r == app.(projects := r.projects, selected := r.selected)
      && (app.selected.None? ==> r.selected.None?)
      && (app.selected.Some? && app.selected.value.0 == idx ==> r.selected.None?)
      && (app.selected.Some? && app.selected.value.0 > idx ==>
            r.selected == Some((app.selected.value.0 - 1, app.selected.value.1)))
      && (app.selected.Some? && app.selected.value.0 < idx ==> r.selected == app.selected)
  {
    if RemovalApplies(app, idx) then
      var selected :=
        match app.selected
        case None => None
        case Some((q, t)) =>
          if q == idx then None
          else if q > idx then Some((q - 1, t))
          else app.selected;
      app.(projects := Remove(app.projects, idx), selected := selected)
    else app
  }

  /** A selection that survives a removal still names the same project, and
      a cleared selection was on the removed one. */
  lemma RemoveKeepsSelectedProject(app: App, idx: nat)
    requires RemovalApplies(app, idx)
    requires app.selected.Some? && app.selected.value.0 < |app.projects|
    ensures var r := RemoveProject(app, idx);
      && (r.selected.None? <==> app.selected.value.0 == idx)
      && (r.selected.Some? ==>
            && r.selected.value.1 == app.selected.value.1
            && r.selected.value.0 < |r.projects|
            && r.projects[r.selected.value.0] == app.projects[app.selected.value.0])
  {
  }

  /** Removing the project just created restores the list and clears the
      selection, provided no process key already claims the new index. */
  lemma RemoveUndoesCreate(app: App)
    requires !HasRunningTasks(app.processes, |app.projects|)
    ensures var r := RemoveProject(CreateProject(app), |app.projects|);
      && r.projects == app.projects
      && r.selected.None?
      && r == app.(selected := None)
  {
  }

  /** Names are numbered by the current length, so removing an earlier
      project between two creates gives the second the same name as the first. */
  lemma CreatedNameRepeatsAfterRemoval(app: App)
    requires |app.projects| >= 1 && !HasRunningTasks(app.processes, 0)
    ensures var n := |app.projects|;
            var r := CreateProject(RemoveProject(CreateProject(app), 0));
      && |r.projects| == n + 1
      && r.projects[n - 1].name == r.projects[n].name
  {
  }

  /** `SelectTask(p, t)`: the selection becomes `(p, t)` without any range
      check; nothing else changes. */
  function SelectTask(app: App, p: nat, t: nat): (r: App)
    ensures r.selected == Some((p, t))
    ensures r.projects == app.projects && r.processes == app.processes
    ensures r == app.(selected := r.selected)
  {
    app.(selected := Some((p, t)))
  }

  /** `ProjectDragStart(idx)` records the dragged index unchecked. */
  function DragStart(app: App, idx: nat): (r: App)
    ensures r.dragging == Some(idx)
    ensures r == app.(dragging := r.dragging)
  {
    app.(dragging := Some(idx))
  }

  /** `ProjectDragEnd` forgets the drag. */
  function DragEnd(app: App): (r: App)
    ensures r.dragging.None?
    ensures r == app.(dragging := r.dragging)
  {
    app.(dragging := None)
  }

  /** Where the project at `idx` sits after the project at `from` moved to
      `to`: the moved one lands on `to`, those it passed over shift by one
      towards `from`, the rest stay. */
  function RemapAfterMove(idx: nat, from: nat, to: nat): (r: nat)
    ensures r == to <==> idx == from
    ensures idx < from && idx < to ==> r == idx
    ensures idx > from && idx > to ==> r == idx
    ensures idx - 1 <= r <= idx + 1 || idx == from
  {
    if idx == from then to
    else if from < to && idx > from && idx <= to then idx - 1
    else if from > to && idx >= to && idx < from then idx + 1
    else idx
  }

  /** The selection remap of `update_selected_after_reorder` for a move of
      `s[from]` to `to`: a selection on a project of `s` follows that project,
      and the task index is kept. */
  function SelectionAfterMove<T>(s: seq<T>, selected: Option<(nat, nat)>, from: nat, to: nat): (r: Option<(nat, nat)>)
    requires from < |s| && to < |s|
    ensures r.None? <==> selected.None?
    ensures r.Some? ==> r.value.1 == selected.value.1
    ensures r.Some? && selected.value.0 < |s| ==>
      r.value.0 < |s| && Move(s, from, to)[r.value.0] == s[selected.value.0]
  {
    match selected
    case None => None
    case Some((q, t)) =>
      RemapTracksMove(s, from, to);
      Some((RemapAfterMove(q, from, to), t))
  }

  /** The index remap is exactly the position map of `Move`: every element
      is found at its remapped index, the remap stays in range, and distinct
      positions go to distinct positions. */
  lemma RemapTracksMove<T>(s: seq<T>, from: nat, to: nat)
    requires from < |s| && to < |s|
    ensures forall k :: 0 <= k < |s| ==> RemapAfterMove(k, from, to) < |s|
    ensures forall k :: 0 <= k < |s| ==> Move(s, from, to)[RemapAfterMove(k, from, to)] == s[k]
    ensures forall j, k :: 0 <= j < k < |s| ==> RemapAfterMove(j, from, to) != RemapAfterMove(k, from, to)
  {
    var r := Move(s, from, to);
    forall k | 0 <= k < |s|
      ensures RemapAfterMove(k, from, to) < |s|
      ensures r[RemapAfterMove(k, from, to)] == s[k]
    {
      if k != from {
        if from < to && k > from && k <= to {
          assert r[k - 1] == s[k];
        } else if from > to && k >= to && k < from {
          assert r[k + 1] == s[k];
        }
      }
    }
  }

  /** Moving back remaps every index back to where it started. */
  lemma RemapBackRestores(idx: nat, from: nat, to: nat)
    ensures RemapAfterMove(RemapAfterMove(idx, from, to), to, from) == idx
  {
  }

  /** `ProjectHovered(to)` takes effect only while a drag from a different,
      existing index is in progress and `to` is an existing index. */
  predicate ReorderApplies(app: App, to: nat) {
    && app.dragging.Some?
    && app.dragging.value != to
    && app.dragging.value < |app.projects|
    && to < |app.projects|
  }

  /** `ProjectHovered(to)`: moves the dragged project to `to`, remaps the
      selection and keeps dragging from `to`. Process keys are not renumbered. */
  function ProjectHovered(app: App, to: nat): (r: App)
    ensures ReorderApplies(app, to) <==> r != app
    ensures ReorderApplies(app, to) ==>
      var from := app.dragging.value;
      && r.projects == Move(app.projects, from, to)
      && r.selected == SelectionAfterMove(app.projects, app.selected, from, to)
      && r.dragging == Some(to)
      && r == app.(projects := r.projects, selected := r.selected, dragging := r.dragging)
  {
    if ReorderApplies(app, to) then
      var from := app.dragging.value;
      app.(projects := Move(app.projects, from, to),
           selected := SelectionAfterMove(app.projects, app.selected, from, to),
           dragging := Some(to))
    else app
  }

  /** A reorder keeps the selection on the project it named, with the same task. */
  lemma ReorderKeepsSelectedProject(app: App, to: nat)
    requires ReorderApplies(app, to)
    requires app.selected.Some? && app.selected.value.0 < |app.projects|
    ensures var r := ProjectHovered(app, to);
      && r.selected.Some?
      && r.selected.value.1 == app.selected.value.1
      && r.selected.value.0 < |r.projects|
      && r.projects[r.selected.value.0] == app.projects[app.selected.value.0]
  {
  }

  /** Dragging a project to `to` and hovering back over its old index
      restores the list, the selection and the drag origin. */
  lemma ReorderBackRestores(app: App, to: nat)
    requires ReorderApplies(app, to)
    ensures var from := app.dragging.value;
            ProjectHovered(ProjectHovered(app, to), from) == app
  {
    var from := app.dragging.value;
    var mid := ProjectHovered(app, to);
    assert ReorderApplies(mid, from);
    MoveBackRestores(app.projects, from, to);
    match app.selected {
      case None =>
      case Some((q, t)) => RemapBackRestores(q, from, to);
    }
  }
}
