/**
  The preview runner component: its three pieces of state (the task list,
  the current task and whether the hierarchy panel is shown), the console
  it writes to, and the handlers that change them.
 */
module PreviewApp {
  import opened Wrappers
  import opened TaskLoader
  import opened Hierarchy
  import opened View

  class PreviewRunner {
    var tasks: seq<Task>
    var currentTask: Option<Task>
    var showHierarchy: bool
    /** The console: load errors and invalid-selection warnings, oldest first. */
    var log: seq<LogEvent>

    /** Every record is well-formed, and the current task is one of the records. */
    ghost predicate Valid()
      reads this
    {
      && (forall i :: 0 <= i < |tasks| ==> WellFormed(tasks[i]))
      && (currentTask.Some? ==> currentTask.value in tasks)
    }

    /** The `useState` initial values. */
    constructor ()
      ensures Valid()
      ensures tasks == [] && currentTask.None? && !showHierarchy && log == []
    {
      tasks, currentTask, showHierarchy, log := [], None, false, [];
    }

    /**
      `importTasks`: load every discovered module, log the failures, commit
      the list sorted by path, and, when the list is not empty, select the
      first valid record, else the first record. With an empty list the
      selection is left as it was.
     */
    method ImportTasks(modules: Discovery)
      requires Valid()
      requires WellFormedDiscovery(modules)
      modifies this
      ensures forall i :: 0 <= i < |tasks| ==> WellFormed(tasks[i])
      ensures old(currentTask).None? || tasks != [] ==> Valid()
      ensures SortedByPath(tasks) && multiset(tasks) == multiset(DeriveAll(modules))
      ensures tasks != [] ==> currentTask == InitialSelection(tasks)
      ensures tasks == [] ==> currentTask == old(currentTask)
      ensures log == old(log) + LoadErrors(modules)
      ensures showHierarchy == old(showHierarchy)
    {
      var sorted, errors := ImportList(modules);
      tasks, log := sorted, log + errors;
      if |sorted| > 0 {
        currentTask := InitialSelection(sorted);
      }
    }

    /**
      A click on a leaf label: the record becomes current whether it is
      valid or not, and an invalid one is also reported on the console.
     */
    method SelectTask(task: Task)
      requires Valid() && task in tasks
      modifies this
      ensures Valid()
      ensures currentTask == Some(task)
      ensures log == old(log) + (if task.isValid then [] else [InvalidTaskWarning(task.fullPath)])
      ensures tasks == old(tasks) && showHierarchy == old(showHierarchy)
    {
      currentTask := Some(task);
      if !task.isValid {
        log := log + [InvalidTaskWarning(task.fullPath)];
      }
    }

    /** The bottom-left button: `setShowHierarchy(prev => !prev)`. */
    method ToggleHierarchy()
      modifies this
      ensures showHierarchy == !old(showHierarchy)
      ensures tasks == old(tasks) && currentTask == old(currentTask) && log == old(log)
    {
      showHierarchy := !showHierarchy;
    }

    /**
      The main viewport: with a current task exactly one of the component and
      the notice naming its path is shown, and nothing without one.
     */
    function Screen(): (v: Viewport)
      requires Valid()
      reads this
      ensures currentTask.None? ==> v.mounted.None? && v.notice.None?
      ensures currentTask.Some? ==> v.mounted.Some? != v.notice.Some?
      ensures currentTask.Some? && currentTask.value.isValid ==> v.mounted == currentTask.value.component
      ensures currentTask.Some? && !currentTask.value.isValid ==> v.notice == Some(currentTask.value.fullPath)
    {
      ViewportOf(currentTask)
    }

    /** The hierarchy panel, rebuilt from the task list on every render while it is shown. */
    function Panel(): (p: Option<Item>)
      reads this
      ensures p.Some? <==> showHierarchy
      ensures p.Some? ==> p.value.FolderEntry?
    {
      if showHierarchy then Some(RenderRoot(HierarchyOf(tasks), currentTask)) else None
    }
  }

  /**
    Two loading passes over the same discovery, as when the mount effect
    runs twice, commit the same list and the same selection.
   */
  lemma RepeatedImport(modules: Discovery, first: seq<Task>, second: seq<Task>)
    requires WellFormedDiscovery(modules) && DistinctKeys(modules)
    requires SortedByPath(first) && multiset(first) == multiset(DeriveAll(modules))
    requires SortedByPath(second) && multiset(second) == multiset(DeriveAll(modules))
    ensures first == second
    ensures InitialSelection(first) == InitialSelection(second)
  {
    ImportedList(modules, first);
    SortedPermutationUnique(first, second);
  }

  /**
    What the first screen shows after loading `modules`: when some module
    has a default export, its component; when none does but some module
    was found, the notice for the smallest path; when none was found, nothing.
   */
  lemma StartupScreen(modules: Discovery, tasks: seq<Task>)
    requires WellFormedDiscovery(modules)
    requires SortedByPath(tasks) && multiset(tasks) == multiset(DeriveAll(modules))
    ensures modules == [] ==> ViewportOf(InitialSelection(tasks)) == Viewport(None, None)
    ensures (exists i :: 0 <= i < |modules| && modules[i].1.Loaded? && modules[i].1.defaultExport.Some?) ==>
      ViewportOf(InitialSelection(tasks)).mounted.Some?
    ensures modules != [] && (forall i :: 0 <= i < |modules| ==> !(modules[i].1.Loaded? && modules[i].1.defaultExport.Some?)) ==>
      ViewportOf(InitialSelection(tasks)).notice == Some(tasks[0].fullPath)
  {
  }
}
