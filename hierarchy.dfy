/**
  The folder hierarchy: a trie keyed by path segment whose inner nodes are
  folders (plain objects without `fullPath`) and whose leaves are task
  records. Each task is inserted by walking its segments from the root,
  creating a missing key as a folder, or as the task on the last segment,
  and never overwriting a key that is already there.
 */
module Hierarchy {
  import opened Wrappers
  import opened Paths
  import opened TaskLoader

  /** A hierarchy node: a plain folder object, or a task record stored on its last segment. */
  datatype Node = Folder(children: map<string, Node>) | Leaf(task: Task)

  /** The node reached by following the segments `p` from `n`, descending only through folders. */
  function Lookup(n: Node, p: seq<string>): Option<Node>
    decreases |p|
  {
    if p == [] then Some(n)
    else match n
      case Leaf(_) => None
      case Folder(c) => if p[0] in c then Lookup(c[p[0]], p[1..]) else None
  }

  /**
    One `parts.forEach` walk of the cursor. A missing key becomes a folder,
    or the task on the last segment; an existing key is kept. When the
    cursor meets a leaf before the last segment it descends into the task
    object, which adds nothing to the tree.
   */
  function Insert(folder: map<string, Node>, parts: seq<string>, task: Task): map<string, Node>
    requires |parts| > 0
    decreases |parts|
  {
    var part := parts[0];
    if part in folder then
      if |parts| == 1 then folder
      else match folder[part]
        case Folder(children) => folder[part := Folder(Insert(children, parts[1..], task))]
        case Leaf(_) => folder
    else if |parts| == 1 then folder[part := Leaf(task)]
    else folder[part := Folder(Insert(map[], parts[1..], task))]
  }

  /** The hierarchy built from `tasks`, inserted in list order (`tasks.forEach`). */
  function HierarchyOf(tasks: seq<Task>): map<string, Node>
  {
    if tasks == [] then map[]
    else
      var n := |tasks| - 1;
      Insert(HierarchyOf(tasks[..n]), Split(tasks[n].fullPath), tasks[n])
  }

  /** One walk adds at most its first segment to the folder it starts in and leaves the other entries alone. */
  lemma InsertTopLevel(folder: map<string, Node>, parts: seq<string>, task: Task)
    requires |parts| > 0
    ensures Insert(folder, parts, task).Keys == folder.Keys + {parts[0]}
    ensures forall k :: k in folder && k != parts[0] ==> Insert(folder, parts, task)[k] == folder[k]
  {
  }

  /** The top-level entries of the panel are exactly the first segments of the task paths. */
  lemma {:induction false} RootKeys(tasks: seq<Task>)
    ensures HierarchyOf(tasks).Keys == set t | t in tasks :: Split(t.fullPath)[0]
  {
    if tasks != [] {
      var n := |tasks| - 1;
      var init := tasks[..n];
      RootKeys(init);
      InsertTopLevel(HierarchyOf(init), Split(tasks[n].fullPath), tasks[n]);
      assert tasks == init + [tasks[n]];
      assert (set t | t in tasks :: Split(t.fullPath)[0])
        == (set t | t in init :: Split(t.fullPath)[0]) + {Split(tasks[n].fullPath)[0]};
    }
  }

  /** `FolderHierarchy`'s two nested loops over the tasks and their segments. */
  method BuildHierarchy(tasks: seq<Task>) returns (hierarchy: map<string, Node>)
    ensures hierarchy == HierarchyOf(tasks)
  {
    hierarchy := map[];
    var i := 0;
    while i < |tasks|
      invariant 0 <= i <= |tasks|
      invariant hierarchy == HierarchyOf(tasks[..i])
    {
      assert tasks[..i + 1][..i] == tasks[..i];
      var task := tasks[i];
      hierarchy := Insert(hierarchy, Split(task.fullPath), task);
      i := i + 1;
    }
    assert tasks[..|tasks|] == tasks;
  }

  /** Following any path means passing through folders only. */
  lemma {:induction false} LookupThroughFolders(n: Node, p: seq<string>, k: nat)
    requires Lookup(n, p).Some? && k < |p|
    ensures Lookup(n, p[..k]).Some? && Lookup(n, p[..k]).value.Folder?
    decreases |p|
  {
    if k > 0 {
      assert p[..k][0] == p[0] && p[..k][1..] == p[1..][..k - 1];
      LookupThroughFolders(n.children[p[0]], p[1..], k - 1);
    }
  }

  /**
    Insertion never replaces anything: every node present stays present, a
    leaf stays the same leaf and a folder stays a folder.
   */
  lemma {:induction false} InsertKeeps(c: map<string, Node>, p: seq<string>, t: Task, q: seq<string>)
    requires |p| > 0
    requires Lookup(Folder(c), q).Some?
    ensures Lookup(Folder(Insert(c, p, t)), q).Some?
    ensures Lookup(Folder(c), q).value.Leaf? ==> Lookup(Folder(Insert(c, p, t)), q) == Lookup(Folder(c), q)
    ensures Lookup(Folder(c), q).value.Folder? ==> Lookup(Folder(Insert(c, p, t)), q).value.Folder?
    decreases |p|
  {
    if q != [] && q[0] == p[0] && |p| > 1 && c[p[0]].Folder? {
      InsertKeeps(c[p[0]].children, p[1..], t, q[1..]);
    }
  }

  /**
    Insertion adds nodes only along `p`, and its one new leaf, if any, is
    the inserted task at `p`.
   */
  lemma {:induction false} InsertAdds(c: map<string, Node>, p: seq<string>, t: Task, q: seq<string>)
    requires |p| > 0
    requires Lookup(Folder(Insert(c, p, t)), q).Some?
    ensures Lookup(Folder(c), q).Some? || q <= p
    ensures Lookup(Folder(Insert(c, p, t)), q).value.Leaf? ==>
      Lookup(Folder(Insert(c, p, t)), q) == Lookup(Folder(c), q) || (q == p && Lookup(Folder(Insert(c, p, t)), q) == Some(Leaf(t)))
    decreases |p|
  {
    if q != [] && q[0] == p[0] {
      assert q == [p[0]] + q[1..] && p == [p[0]] + p[1..];
      if p[0] in c {
        if |p| > 1 && c[p[0]].Folder? {
          InsertAdds(c[p[0]].children, p[1..], t, q[1..]);
        }
      } else if |p| > 1 {
        if q[1..] != [] {
          InsertAdds(map[], p[1..], t, q[1..]);
        }
      }
    }
  }

  /** Inserting at a path that is already present changes nothing: the first write wins. */
  lemma {:induction false} InsertExistingIsNoop(c: map<string, Node>, p: seq<string>, t: Task)
    requires |p| > 0 && Lookup(Folder(c), p).Some?
    ensures Insert(c, p, t) == c
    decreases |p|
  {
    if |p| > 1 {
      var ch := c[p[0]].children;
      InsertExistingIsNoop(ch, p[1..], t);
      assert c[p[0] := Folder(ch)] == c;
    }
  }

  /** `p` can receive a new leaf: no node at `p` and no leaf on the way there. */
  predicate CanPlace(c: map<string, Node>, p: seq<string>)
    requires |p| > 0
    decreases |p|
  {
    p[0] !in c || (|p| > 1 && c[p[0]].Folder? && CanPlace(c[p[0]].children, p[1..]))
  }

  lemma {:induction false} InsertPlaces(c: map<string, Node>, p: seq<string>, t: Task)
    requires |p| > 0 && CanPlace(c, p)
    ensures Lookup(Folder(Insert(c, p, t)), p) == Some(Leaf(t))
    decreases |p|
  {
    if |p| > 1 {
      if p[0] in c {
        InsertPlaces(c[p[0]].children, p[1..], t);
      } else {
        InsertPlaces(map[], p[1..], t);
      }
    }
  }

  /** Where `p` cannot receive a leaf, the obstacle is a node at `p` or a leaf at a proper prefix. */
  lemma {:induction false} Obstacle(c: map<string, Node>, p: seq<string>) returns (k: nat)
    requires |p| > 0 && !CanPlace(c, p)
    ensures 0 < k <= |p|
    ensures k == |p| ==> Lookup(Folder(c), p).Some?
    ensures k < |p| ==> Lookup(Folder(c), p[..k]).Some? && Lookup(Folder(c), p[..k]).value.Leaf?
    decreases |p|
  {
    if |p| == 1 || c[p[0]].Leaf? {
      k := 1;
      assert p[..1] == [p[0]] && p[..1][1..] == [];
    } else {
      var k' := Obstacle(c[p[0]].children, p[1..]);
      k := k' + 1;
      assert p[..k][0] == p[0] && p[..k][1..] == p[1..][..k'];
      if k == |p| {
        assert p[..k] == p;
      }
    }
  }

  /** The tree holds only what the tasks put there. */
  ghost predicate Supported(h: map<string, Node>, tasks: seq<Task>)
  {
    && (forall q :: Lookup(Folder(h), q).Some? && Lookup(Folder(h), q).value.Leaf? ==>
          Lookup(Folder(h), q).value.task in tasks && q == Split(Lookup(Folder(h), q).value.task.fullPath))
    && (forall q :: Lookup(Folder(h), q).Some? ==>
          q == [] || exists i :: 0 <= i < |tasks| && q <= Split(tasks[i].fullPath))
  }

  /**
    Every leaf of the hierarchy is one of the tasks, standing at its own
    path, and every node lies on the path of some task.
   */
  lemma {:induction false} HierarchySupported(tasks: seq<Task>)
    ensures Supported(HierarchyOf(tasks), tasks)
  {
    if tasks != [] {
      var n := |tasks| - 1;
      var init := tasks[..n];
      var h0 := HierarchyOf(init);
      var p := Split(tasks[n].fullPath);
      var h := HierarchyOf(tasks);
      HierarchySupported(init);
      forall q | Lookup(Folder(h), q).Some?
        ensures Lookup(Folder(h), q).value.Leaf? ==>
          Lookup(Folder(h), q).value.task in tasks && q == Split(Lookup(Folder(h), q).value.task.fullPath)
        ensures q == [] || exists i :: 0 <= i < |tasks| && q <= Split(tasks[i].fullPath)
      {
        InsertAdds(h0, p, tasks[n], q);
        if Lookup(Folder(h0), q).Some? && q != [] {
          var i :| 0 <= i < |init| && q <= Split(init[i].fullPath);
          assert tasks[i] == init[i];
        }
      }
    }
  }

  /** No task's segments begin another task's, and no path is listed twice. */
  predicate PrefixFree(tasks: seq<Task>)
  {
    forall i, j :: 0 <= i < |tasks| && 0 <= j < |tasks| && i != j ==>
      tasks[i].fullPath != tasks[j].fullPath && !(Split(tasks[i].fullPath) < Split(tasks[j].fullPath))
  }

  /** Relative to `Split(t.fullPath)` the paths of `init` are neither equal, nor prefixes, nor extensions. */
  ghost predicate Unrelated(init: seq<Task>, t: Task)
  {
    forall i :: 0 <= i < |init| ==>
      init[i].fullPath != t.fullPath && !(Split(init[i].fullPath) < Split(t.fullPath)) && !(Split(t.fullPath) < Split(init[i].fullPath))
  }

  lemma NoNodeAtPath(h: map<string, Node>, init: seq<Task>, t: Task)
    requires Supported(h, init) && Unrelated(init, t)
    ensures Lookup(Folder(h), Split(t.fullPath)).None?
  {
    var p := Split(t.fullPath);
    if Lookup(Folder(h), p).Some? {
      assert p != [];
      var i :| 0 <= i < |init| && p <= Split(init[i].fullPath);
      if p == Split(init[i].fullPath) {
        SplitInjective(t.fullPath, init[i].fullPath);
      }
    }
  }

  /**
    A hierarchy built from tasks whose paths are unrelated to `t`'s by the
    prefix order has room for `t` at its path.
   */
  lemma PlaceableAfter(h: map<string, Node>, init: seq<Task>, t: Task)
    requires Supported(h, init) && Unrelated(init, t)
    ensures CanPlace(h, Split(t.fullPath))
  {
    var p := Split(t.fullPath);
    if !CanPlace(h, p) {
      var k := Obstacle(h, p);
      if k == |p| {
        NoNodeAtPath(h, init, t);
      }
    }
  }

  /**
    When no task's path is a segment-wise prefix of another's, following a
    task's segments from the root passes through folders and ends at that
    very task.
   */
  lemma {:induction false} HierarchyReaches(tasks: seq<Task>)
    requires PrefixFree(tasks)
    ensures forall i :: 0 <= i < |tasks| ==>
      Lookup(Folder(HierarchyOf(tasks)), Split(tasks[i].fullPath)) == Some(Leaf(tasks[i]))
  {
    if tasks != [] {
      var n := |tasks| - 1;
      var init := tasks[..n];
      var h0 := HierarchyOf(init);
      var p := Split(tasks[n].fullPath);
      assert PrefixFree(init) by {
        forall i, j | 0 <= i < |init| && 0 <= j < |init| && i != j
          ensures init[i].fullPath != init[j].fullPath && !(Split(init[i].fullPath) < Split(init[j].fullPath))
        {
          assert init[i] == tasks[i] && init[j] == tasks[j];
        }
      }
      HierarchyReaches(init);
      HierarchySupported(init);
      assert Unrelated(init, tasks[n]) by {
        forall i | 0 <= i < |init|
          ensures init[i].fullPath != tasks[n].fullPath
          ensures !(Split(init[i].fullPath) < p) && !(p < Split(init[i].fullPath))
        {
          assert init[i] == tasks[i];
        }
      }
      PlaceableAfter(h0, init, tasks[n]);
      InsertPlaces(h0, p, tasks[n]);
      forall i | 0 <= i < |tasks|
        ensures Lookup(Folder(HierarchyOf(tasks)), Split(tasks[i].fullPath)) == Some(Leaf(tasks[i]))
      {
        if i < n {
          assert tasks[i] == init[i];
          InsertKeeps(h0, p, tasks[n], Split(tasks[i].fullPath));
        }
      }
    }
  }

  /**
    A repeated path keeps the leaf inserted first: once a task's leaf is in
    the tree, inserting the rest of the tasks leaves it in place.
   */
  lemma {:induction false} LeavesSurvive(tasks: seq<Task>, more: seq<Task>, q: seq<string>, u: Task)
    requires Lookup(Folder(HierarchyOf(tasks)), q) == Some(Leaf(u))
    ensures Lookup(Folder(HierarchyOf(tasks + more)), q) == Some(Leaf(u))
    decreases |more|
  {
    if more == [] {
      assert tasks + more == tasks;
    } else {
      var n := |more| - 1;
      LeavesSurvive(tasks, more[..n], q, u);
      var all := tasks + more;
      assert all[..|all| - 1] == tasks + more[..n] && all[|all| - 1] == more[n];
      InsertKeeps(HierarchyOf(tasks + more[..n]), Split(more[n].fullPath), more[n], q);
    }
  }
}
