/**
  The task loader: one record per discovered module, failures turned into
  invalid records, the list sorted by path, and the record selected first.
  Discovery and asynchronous loading are given as data: one
  `(path, outcome)` pair per module, in enumeration order.
 */
module TaskLoader {
  import opened Wrappers
  import opened Paths
  import opened Collation

  /** The default export of a module, an opaque handle to a UI component. */
  datatype Component = Component(handle: nat)

  /**
    The result of `await taskModules[path]()`: a rejection with its detail,
    or the module with its default export. A falsy default counts as absent.
   */
  datatype LoadOutcome = Failed(error: string) | Loaded(defaultExport: Option<Component>)

  /** A task record `{id, name, component, fullPath, isValid}`. */
  datatype Task = Task(id: string, name: string, component: Option<Component>, fullPath: string, isValid: bool)

  /** Diagnostics written to the console. */
  datatype LogEvent =
    | LoadError(path: string, error: string)
    | InvalidTaskWarning(path: string)

  /** What the discovery pattern yields: each path with the outcome of loading it. */
  type Discovery = seq<(string, LoadOutcome)>

  /**
    A successfully loaded path has a third segment to give the task its id;
    the pattern `./tasks/**/*.jsx` always does.
   */
  predicate Loadable(path: string, outcome: LoadOutcome)
  {
    outcome.Loaded? ==> |Split(path)| > 2
  }

  predicate WellFormedDiscovery(modules: Discovery)
  {
    forall i :: 0 <= i < |modules| ==> Loadable(modules[i].0, modules[i].1)
  }

  /** Discovery keys are the keys of one object, so no path is discovered twice. */
  predicate DistinctKeys(modules: Discovery)
  {
    forall i, j :: 0 <= i < j < |modules| ==> modules[i].0 != modules[j].0
  }

  /** A record is valid exactly when it carries a component. */
  predicate WellFormed(t: Task)
  {
    t.isValid <==> t.component.Some?
  }

  /** The record pushed for one discovered path, on success and on failure. */
  function Derive(path: string, outcome: LoadOutcome): (t: Task)
    requires Loadable(path, outcome)
    ensures t.fullPath == path && t.name == LastSegment(path)
    ensures t.isValid <==> outcome.Loaded? && outcome.defaultExport.Some?
    ensures outcome.Loaded? ==> t.id == Split(path)[2] && t.component == outcome.defaultExport
    ensures outcome.Failed? ==> t.id == path && t.component.None?
    ensures WellFormed(t)
  {
    match outcome
    case Loaded(d) =>
      var parts := Split(path);
      Task(parts[2], parts[|parts| - 1], d, path, d.Some?)
    case Failed(_) =>
      Task(path, LastSegment(path), None, path, false)
  }

  /** The records of all discovered paths, in discovery order. */
  function DeriveAll(modules: Discovery): (ts: seq<Task>)
    requires WellFormedDiscovery(modules)
    ensures |ts| == |modules|
    ensures forall i :: 0 <= i < |modules| ==> ts[i] == Derive(modules[i].0, modules[i].1)
  {
    if modules == [] then []
    else
      var n := |modules| - 1;
      DeriveAll(modules[..n]) + [Derive(modules[n].0, modules[n].1)]
  }

  /** The positions of the failed loads, in increasing order. */
  function FailedIndices(modules: Discovery): (fs: seq<nat>)
    ensures forall k :: 0 <= k < |fs| ==> fs[k] < |modules| && modules[fs[k]].1.Failed?
    ensures forall k, m :: 0 <= k < m < |fs| ==> fs[k] < fs[m]
    ensures forall i :: 0 <= i < |modules| && modules[i].1.Failed? ==> i in fs
    ensures |fs| <= |modules|
  {
    if modules == [] then []
    else
      var n := |modules| - 1;
      var earlier := FailedIndices(modules[..n]);
      assert forall k :: 0 <= k < |earlier| ==> modules[..n][earlier[k]] == modules[earlier[k]];
      if modules[n].1.Failed? then earlier + [n] else earlier
  }

  /** `log` holds, for each listed position in turn, the error of the failed load there, and nothing else. */
  predicate ErrorsAt(modules: Discovery, fs: seq<nat>, log: seq<LogEvent>)
  {
    && |log| == |fs|
    && forall k :: 0 <= k < |log| ==>
      fs[k] < |modules| && modules[fs[k]].1.Failed? && log[k] == LoadError(modules[fs[k]].0, modules[fs[k]].1.error)
  }

  /** Errors logged for a prefix of the discovery are also the errors at those positions of the whole. */
  lemma ErrorsAtExtend(modules: Discovery, fs: seq<nat>, earlier: seq<LogEvent>)
    requires modules != [] && ErrorsAt(modules[..|modules| - 1], fs, earlier)
    ensures ErrorsAt(modules, fs, earlier)
    ensures var n := |modules| - 1;
      modules[n].1.Failed? ==> ErrorsAt(modules, fs + [n], earlier + [LoadError(modules[n].0, modules[n].1.error)])
  {
  }

  /**
    The `console.error` lines of a discovery pass: exactly one per failed
    load, naming its path and error, in discovery order.
   */
  function LoadErrors(modules: Discovery): (log: seq<LogEvent>)
    ensures ErrorsAt(modules, FailedIndices(modules), log)
    ensures forall i :: 0 <= i < |modules| && modules[i].1.Failed? ==> LoadError(modules[i].0, modules[i].1.error) in log
    ensures |log| <= |modules|
    ensures log == [] <==> forall i :: 0 <= i < |modules| ==> modules[i].1.Loaded?
  {
    if modules == [] then []
    else
      var n := |modules| - 1;
      var earlier := LoadErrors(modules[..n]);
      ErrorsAtExtend(modules, FailedIndices(modules[..n]), earlier);
      var fs := FailedIndices(modules);
      var log := if modules[n].1.Failed? then earlier + [LoadError(modules[n].0, modules[n].1.error)] else earlier;
      assert ErrorsAt(modules, fs, log);
      ErrorsAtIndices(modules, fs, log);
      log
  }

  /** A log holding one error per listed failure, in list order, holds every failure and is empty only when none failed. */
  lemma ErrorsAtIndices(modules: Discovery, fs: seq<nat>, log: seq<LogEvent>)
    requires fs == FailedIndices(modules) && ErrorsAt(modules, fs, log)
    ensures forall i :: 0 <= i < |modules| && modules[i].1.Failed? ==> LoadError(modules[i].0, modules[i].1.error) in log
    ensures log == [] <==> forall i :: 0 <= i < |modules| ==> modules[i].1.Loaded?
  {
  }

  /**
    The `for (const path in taskModules)` loop: every path gets a record,
    and a failed load is logged and the loop carries on.
   */
  method LoadAll(modules: Discovery) returns (loaded: seq<Task>, errors: seq<LogEvent>)
    requires WellFormedDiscovery(modules)
    ensures loaded == DeriveAll(modules)
    ensures errors == LoadErrors(modules)
  {
    loaded, errors := [], [];
    for i := 0 to |modules|
      invariant loaded == DeriveAll(modules[..i])
      invariant errors == LoadErrors(modules[..i])
    {
      assert modules[..i + 1][..i] == modules[..i];
      var (path, outcome) := modules[i];
      if outcome.Failed? {
        errors := errors + [LoadError(path, outcome.error)];
      }
      loaded := loaded + [Derive(path, outcome)];
    }
    assert modules[..|modules|] == modules;
  }

  predicate SortedByPath(ts: seq<Task>)
  {
    forall i, j :: 0 <= i < j < |ts| ==> PathLeq(ts[i].fullPath, ts[j].fullPath)
  }

  predicate DistinctPaths(ts: seq<Task>)
  {
    forall i, j :: 0 <= i < j < |ts| ==> ts[i].fullPath != ts[j].fullPath
  }

  /** The first `n` records are in order. */
  ghost predicate SortedUpTo(s: seq<Task>, n: nat)
  {
    forall k, m :: 0 <= k < m < n && m < |s| ==> PathLeq(s[k].fullPath, s[m].fullPath)
  }

  /**
    Insertion of `s[i]` into the sorted `s[..i]` is under way and the moving
    record now stands at `j`: all of `s[..i + 1]` is in order except pairs
    ending at `j`, and the moving record precedes everything after it.
   */
  ghost predicate Inserting(s: seq<Task>, i: nat, j: nat)
  {
    && j <= i < |s|
    && (forall k, m :: 0 <= k < m <= i && m != j ==> PathLeq(s[k].fullPath, s[m].fullPath))
    && (forall m :: j < m <= i ==> PathLeq(s[j].fullPath, s[m].fullPath))
  }

  /** Swapping the moving record with a larger predecessor moves it one step left. */
  lemma InsertingSwap(s: seq<Task>, i: nat, j: nat)
    requires Inserting(s, i, j) && 0 < j
    requires !PathLeq(s[j - 1].fullPath, s[j].fullPath)
    ensures Inserting(s[j - 1 := s[j]][j := s[j - 1]], i, j - 1)
  {
    PathLeqTotal(s[j - 1].fullPath, s[j].fullPath);
  }

  /** Once the predecessor is no larger, or there is none, `s[..i + 1]` is in order. */
  lemma InsertingDone(s: seq<Task>, i: nat, j: nat)
    requires Inserting(s, i, j)
    requires j == 0 || PathLeq(s[j - 1].fullPath, s[j].fullPath)
    ensures SortedUpTo(s, i + 1)
  {
    forall k | 0 <= k < j - 1
      ensures PathLeq(s[k].fullPath, s[j].fullPath)
    {
      PathLeqTransitive(s[k].fullPath, s[j - 1].fullPath, s[j].fullPath);
    }
  }

  method Swap(a: array<Task>, i: nat, j: nat)
    requires i < a.Length && j < a.Length
    modifies a
    ensures a[..] == old(a[..])[i := old(a[j])][j := old(a[i])]
    ensures multiset(a[..]) == multiset(old(a[..]))
  {
    a[i], a[j] := a[j], a[i];
  }

  /**
    `loadedTasks.sort((a, b) => a.fullPath.localeCompare(b.fullPath))`,
    done in place; insertion sort stands for the library's algorithm.
   */
  method SortByFullPath(a: array<Task>)
    modifies a
    ensures SortedByPath(a[..])
    ensures multiset(a[..]) == multiset(old(a[..]))
  {
    for i := 0 to a.Length
      invariant SortedUpTo(a[..], i)
      invariant multiset(a[..]) == multiset(old(a[..]))
    {
      var j := i;
      while j > 0 && !PathLeq(a[j - 1].fullPath, a[j].fullPath)
        invariant Inserting(a[..], i, j)
        invariant multiset(a[..]) == multiset(old(a[..]))
      {
        InsertingSwap(a[..], i, j);
        Swap(a, j - 1, j);
        j := j - 1;
      }
      InsertingDone(a[..], i, j);
    }
  }

  /** The pushed records, as the array that `sort` rearranges in place. */
  method ToArray(s: seq<Task>) returns (a: array<Task>)
    ensures fresh(a) && a[..] == s
  {
    a := new Task[|s|](i requires 0 <= i < |s| => s[i]);
  }

  /**
    The list `importTasks` commits and the errors it logs: the derived
    records, rearranged into path order, each well-formed.
   */
  method ImportList(modules: Discovery) returns (sorted: seq<Task>, errors: seq<LogEvent>)
    requires WellFormedDiscovery(modules)
    ensures SortedByPath(sorted) && multiset(sorted) == multiset(DeriveAll(modules))
    ensures forall j :: 0 <= j < |sorted| ==> WellFormed(sorted[j])
    ensures errors == LoadErrors(modules)
  {
    var loaded;
    loaded, errors := LoadAll(modules);
    var a := ToArray(loaded);
    SortByFullPath(a);
    sorted := a[..];
    ArrangementWellFormed(modules, sorted);
  }

  /** `loadedTasks.find(task => task.isValid)`, as an index. */
  function FindValid(tasks: seq<Task>): (r: Option<nat>)
    ensures r.Some? ==> r.value < |tasks| && tasks[r.value].isValid
    ensures r.Some? ==> forall j :: 0 <= j < r.value ==> !tasks[j].isValid
    ensures r.None? <==> forall j :: 0 <= j < |tasks| ==> !tasks[j].isValid
  {
    if tasks == [] then None
    else if tasks[0].isValid then Some(0)
    else match FindValid(tasks[1..])
      case None => None
      case Some(k) => Some(k + 1)
  }

  /**
    The task selected after loading: none for an empty list, else the first
    valid record, else the first record.
   */
  function InitialSelection(tasks: seq<Task>): (r: Option<Task>)
    ensures r.None? <==> tasks == []
    ensures r.Some? ==> r.value in tasks
    ensures forall i :: 0 <= i < |tasks| && tasks[i].isValid && (forall j :: 0 <= j < i ==> !tasks[j].isValid) ==>
      r == Some(tasks[i])
    ensures tasks != [] && (forall j :: 0 <= j < |tasks| ==> !tasks[j].isValid) ==> r == Some(tasks[0])
  {
    if tasks == [] then None
    else match FindValid(tasks)
      case Some(i) => Some(tasks[i])
      case None => Some(tasks[0])
  }

  /**
    On a sorted list the selection is the valid record with the smallest
    path, or the record with the smallest path when none is valid.
   */
  lemma SelectionIsSmallest(tasks: seq<Task>)
    requires SortedByPath(tasks) && tasks != []
    ensures InitialSelection(tasks).Some?
    ensures var s := InitialSelection(tasks).value;
      (exists i :: 0 <= i < |tasks| && tasks[i].isValid) ==>
        s.isValid && forall j :: 0 <= j < |tasks| && tasks[j].isValid ==> PathLeq(s.fullPath, tasks[j].fullPath)
    ensures var s := InitialSelection(tasks).value;
      (forall i :: 0 <= i < |tasks| ==> !tasks[i].isValid) ==>
        forall j :: 0 <= j < |tasks| ==> PathLeq(s.fullPath, tasks[j].fullPath)
  {
  }

  /** Two sorted arrangements of the same records with distinct paths start with the same record. */
  lemma SortedPermutationHead(a: seq<Task>, b: seq<Task>)
    requires a != [] && multiset(a) == multiset(b)
    requires SortedByPath(a) && SortedByPath(b) && DistinctPaths(a)
    ensures b != [] && a[0] == b[0]
  {
    assert a[0] in multiset(a);
    assert b != [];
    assert b[0] in multiset(b);
    var i :| 0 <= i < |a| && a[i] == b[0];
    var j :| 0 <= j < |b| && b[j] == a[0];
    if i != 0 {
      PathLeqAntisymmetric(a[0].fullPath, a[i].fullPath);
      assert false;
    }
  }

  /** Removing the same first record from two lists with the same records leaves the same records. */
  lemma MultisetTail(a: seq<Task>, b: seq<Task>)
    requires a != [] && b != [] && a[0] == b[0] && multiset(a) == multiset(b)
    ensures multiset(a[1..]) == multiset(b[1..])
  {
    assert a == [a[0]] + a[1..] && b == [b[0]] + b[1..];
    assert multiset(a[1..]) == multiset(a) - multiset{a[0]};
    assert multiset(b[1..]) == multiset(b) - multiset{b[0]};
  }

  /** Two sorted lists holding the same records with distinct paths are equal. */
  lemma {:induction false} SortedPermutationUnique(a: seq<Task>, b: seq<Task>)
    requires multiset(a) == multiset(b)
    requires SortedByPath(a) && SortedByPath(b) && DistinctPaths(a)
    ensures a == b
  {
    if a == [] {
      assert |b| == |multiset(b)| == 0;
    } else {
      SortedPermutationHead(a, b);
      MultisetTail(a, b);
      assert SortedByPath(a[1..]) && SortedByPath(b[1..]) && DistinctPaths(a[1..]);
      SortedPermutationUnique(a[1..], b[1..]);
      assert a == [a[0]] + a[1..] && b == [b[0]] + b[1..];
    }
  }

  /** Any arrangement of the derived records holds well-formed records only. */
  lemma ArrangementWellFormed(modules: Discovery, tasks: seq<Task>)
    requires WellFormedDiscovery(modules)
    requires multiset(tasks) == multiset(DeriveAll(modules))
    ensures forall j :: 0 <= j < |tasks| ==> WellFormed(tasks[j])
  {
    forall j | 0 <= j < |tasks| ensures WellFormed(tasks[j]) {
      assert tasks[j] in multiset(tasks);
      var d := DeriveAll(modules);
      var i :| 0 <= i < |d| && d[i] == tasks[j];
    }
  }

  /** Some arrangement of the derived records holds a valid one exactly when some module has a default export. */
  lemma ArrangementHasValid(modules: Discovery, tasks: seq<Task>)
    requires WellFormedDiscovery(modules)
    requires multiset(tasks) == multiset(DeriveAll(modules))
    ensures |tasks| == |modules|
    ensures (exists j :: 0 <= j < |tasks| && tasks[j].isValid) <==>
      (exists i :: 0 <= i < |modules| && modules[i].1.Loaded? && modules[i].1.defaultExport.Some?)
  {
  }

  /** A record list with distinct paths holds each record at most once. */
  lemma {:induction false} DistinctCountsOnce(s: seq<Task>, t: Task)
    requires DistinctPaths(s)
    ensures multiset(s)[t] <= 1
  {
    if s != [] {
      var n := |s| - 1;
      assert s == s[..n] + [s[n]];
      assert DistinctPaths(s[..n]);
      DistinctCountsOnce(s[..n], t);
      if t == s[n] {
        assert t !in s[..n];
      }
    }
  }

  /** A record at two positions is counted at least twice. */
  lemma TwiceCountsTwice(s: seq<Task>, i: nat, j: nat)
    requires i < j < |s| && s[i] == s[j]
    ensures multiset(s)[s[i]] >= 2
  {
    assert s == s[..i] + [s[i]] + s[i + 1..j] + [s[j]] + s[j + 1..];
  }

  /** Lists holding the same records have the same members. */
  lemma SameMembers(d: seq<Task>, tasks: seq<Task>)
    requires multiset(tasks) == multiset(d)
    ensures forall i :: 0 <= i < |d| ==> d[i] in tasks
    ensures forall j :: 0 <= j < |tasks| ==> tasks[j] in d
  {
    forall i | 0 <= i < |d| ensures d[i] in tasks {
      assert d[i] in multiset(d);
    }
    forall j | 0 <= j < |tasks| ensures tasks[j] in d {
      assert tasks[j] in multiset(tasks);
    }
  }

  /** Rearranging records with distinct paths keeps the paths distinct. */
  lemma PermutationDistinct(d: seq<Task>, tasks: seq<Task>)
    requires multiset(tasks) == multiset(d) && DistinctPaths(d)
    ensures DistinctPaths(tasks)
  {
    forall k, m | 0 <= k < m < |tasks| ensures tasks[k].fullPath != tasks[m].fullPath {
      if tasks[k].fullPath == tasks[m].fullPath {
        assert tasks[k] in multiset(tasks) && tasks[m] in multiset(tasks);
        var ik :| 0 <= ik < |d| && d[ik] == tasks[k];
        var im :| 0 <= im < |d| && d[im] == tasks[m];
        assert ik == im;
        TwiceCountsTwice(tasks, k, m);
        DistinctCountsOnce(d, tasks[k]);
        assert false;
      }
    }
  }

  /**
    The list the loader commits, whatever order it was pushed in: one record
    per discovered path, each the record derived for it, and with distinct
    discovery keys no path twice, so the sorted list is also strictly ordered
    and is the only sorted arrangement.
   */
  lemma {:induction false} ImportedList(modules: Discovery, tasks: seq<Task>)
    requires WellFormedDiscovery(modules)
    requires multiset(tasks) == multiset(DeriveAll(modules))
    ensures |tasks| == |modules|
    ensures forall i :: 0 <= i < |modules| ==> Derive(modules[i].0, modules[i].1) in tasks
    ensures forall j :: 0 <= j < |tasks| ==>
      exists i :: 0 <= i < |modules| && tasks[j] == Derive(modules[i].0, modules[i].1)
    ensures DistinctKeys(modules) ==> DistinctPaths(tasks)
  {
    var d := DeriveAll(modules);
    assert |tasks| == |d| by { assert |multiset(tasks)| == |multiset(d)|; }
    SameMembers(d, tasks);
    if DistinctKeys(modules) {
      assert DistinctPaths(d);
      PermutationDistinct(d, tasks);
    }
  }
}
