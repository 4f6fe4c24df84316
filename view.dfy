/**
  What the preview screen shows: the three leaf styles and two icons of
  the hierarchy panel, the rendered panel tree, and the main viewport.
  Markup, CSS classes and icon images are reduced to these enumerations.
 */
module View {
  import opened Wrappers
  import opened Paths
  import opened TaskLoader
  import opened Hierarchy

  /** The leaf label's class: bold green, plain white, or yellow warning. */
  datatype LeafStyle = Selected | Plain | Warning

  datatype Icon = FileIcon | AlertIcon

  /** The record at `current` is the one shown; records are identified by `fullPath`. */
  predicate IsCurrent(task: Task, current: Option<Task>)
  {
    current.Some? && current.value.fullPath == task.fullPath
  }

  /** An invalid leaf warns whatever the selection; a valid one is selected or plain. */
  function LeafStyleOf(task: Task, current: Option<Task>): (s: LeafStyle)
    ensures s == Warning <==> !task.isValid
    ensures s == Selected <==> task.isValid && IsCurrent(task, current)
    ensures s == Plain <==> task.isValid && !IsCurrent(task, current)
  {
    if task.isValid then
      if IsCurrent(task, current) then Selected else Plain
    else Warning
  }

  /** The file icon for a valid leaf, the alert icon otherwise; it agrees with the style. */
  function IconOf(task: Task): (i: Icon)
    ensures i == FileIcon <==> task.isValid
    ensures forall current :: i == AlertIcon <==> LeafStyleOf(task, current) == Warning
  {
    if task.isValid then FileIcon else AlertIcon
  }

  /**
    When the current record is one of a list with distinct paths, the only
    leaf of that list drawn as selected is the current record, if it is valid.
   */
  lemma SelectedIsCurrent(tasks: seq<Task>, current: Task, i: nat)
    requires DistinctPaths(tasks) && current in tasks && i < |tasks|
    ensures LeafStyleOf(tasks[i], Some(current)) == Selected <==> tasks[i] == current && current.isValid
  {
  }

  /** The record properties the renderer reads on a tree node. */
  const FullPathKey: string := "fullPath"
  const IsValidKey: string := "isValid"

  /**
    A rendered panel entry: a folder label with its entries, a clickable
    leaf label for a task, or a leaf label drawn for a folder object that
    has a child named `fullPath` and so passes the renderer's leaf test.
   */
  datatype Item =
    | FolderEntry(entries: map<string, Item>)
    | LeafEntry(task: Task, style: LeafStyle, icon: Icon)
    | FolderAsLeaf(style: LeafStyle, icon: Icon)

  /**
    `renderFolder`'s test for one entry: an object without a truthy
    `fullPath` is drawn as a folder, with its entries in no particular
    order; anything else as a leaf label. A folder that has a child named
    `fullPath` is therefore drawn as a leaf: it is valid exactly when it
    also has a child named `isValid`, and it is never the selected record,
    whose `fullPath` is a string and not that child object.
   */
  function RenderNode(n: Node, current: Option<Task>): (r: Item)
    ensures r.FolderEntry? <==> n.Folder? && FullPathKey !in n.children
    ensures r.LeafEntry? <==> n.Leaf?
    ensures r.FolderAsLeaf? ==> (r.style == Warning <==> IsValidKey !in n.children) && r.style != Selected
  {
    match n
    case Folder(c) =>
      if FullPathKey in c then
        if IsValidKey in c then FolderAsLeaf(Plain, FileIcon) else FolderAsLeaf(Warning, AlertIcon)
      else FolderEntry(map name | name in c :: RenderNode(c[name], current))
    case Leaf(t) => LeafEntry(t, LeafStyleOf(t, current), IconOf(t))
  }

  /** `renderFolder(hierarchy)`: the root object is always drawn as a list of entries. */
  function RenderRoot(h: map<string, Node>, current: Option<Task>): (r: Item)
    ensures r.FolderEntry? && r.entries.Keys == h.Keys
  {
    FolderEntry(map name | name in h :: RenderNode(h[name], current))
  }

  /** The rendered entry reached by following `p`; nothing is drawn below a leaf label. */
  function ItemAt(item: Item, p: seq<string>): Option<Item>
    decreases |p|
  {
    if p == [] then Some(item)
    else match item
      case FolderEntry(e) => if p[0] in e then ItemAt(e[p[0]], p[1..]) else None
      case _ => None
  }

  /** The node reached by following `p` from `n` through nodes that are drawn as folders. */
  function Visible(n: Node, p: seq<string>): Option<Node>
    decreases |p|
  {
    if p == [] then Some(n)
    else match n
      case Leaf(_) => None
      case Folder(c) => if FullPathKey in c || p[0] !in c then None else Visible(c[p[0]], p[1..])
  }

  /** The node at a path is not drawn as a folder label hiding what lies below. */
  predicate DrawnOpen(m: Option<Node>)
  {
    m.Some? && m.value.Folder? ==> FullPathKey !in m.value.children
  }

  /** The rendered tree has the shape of the visible part of the hierarchy: each visible node is drawn at its own path. */
  lemma {:induction false} RenderFollowsHierarchy(n: Node, current: Option<Task>, p: seq<string>)
    ensures Visible(n, p).None? ==> ItemAt(RenderNode(n, current), p).None?
    ensures Visible(n, p).Some? ==> ItemAt(RenderNode(n, current), p) == Some(RenderNode(Visible(n, p).value, current))
    decreases |p|
  {
    if p != [] && n.Folder? && FullPathKey !in n.children && p[0] in n.children {
      RenderFollowsHierarchy(n.children[p[0]], current, p[1..]);
    }
  }

  /**
    A visible node is the node of the hierarchy at that path, and a node is
    visible when every node before it on its path is drawn as a folder.
   */
  lemma {:induction false} VisibleIsLookup(n: Node, p: seq<string>)
    ensures Visible(n, p).Some? ==> Lookup(n, p) == Visible(n, p)
    ensures Lookup(n, p).Some? && (forall k :: 0 <= k < |p| ==> DrawnOpen(Lookup(n, p[..k]))) ==>
      Visible(n, p) == Lookup(n, p)
    decreases |p|
  {
    if p != [] && n.Folder? && p[0] in n.children {
      var m := n.children[p[0]];
      VisibleIsLookup(m, p[1..]);
      if Lookup(n, p).Some? && (forall k :: 0 <= k < |p| ==> DrawnOpen(Lookup(n, p[..k]))) {
        assert p[..0] == [];
        assert DrawnOpen(Lookup(n, p[..0]));
        forall k | 0 <= k < |p| - 1 ensures DrawnOpen(Lookup(m, p[1..][..k])) {
          assert p[..k + 1][0] == p[0] && p[..k + 1][1..] == p[1..][..k];
          assert DrawnOpen(Lookup(n, p[..k + 1]));
        }
      }
    }
  }

  /** Below a folder that has a child named `fullPath` nothing is visible. */
  lemma {:induction false} HiddenBelowFullPath(n: Node, p: seq<string>, j: nat)
    requires j < |p| && p[j] == FullPathKey && Lookup(n, p[..j + 1]).Some?
    ensures Visible(n, p).None?
    decreases j
  {
    assert p[..j + 1][0] == p[0] && p[..j + 1][1..] == p[1..][..j];
    if j > 0 && FullPathKey !in n.children {
      HiddenBelowFullPath(n.children[p[0]], p[1..], j - 1);
    }
  }

  /** A node one step below a node of the hierarchy is reached by the longer path. */
  lemma {:induction false} LookupExtend(n: Node, q: seq<string>, key: string)
    requires Lookup(n, q).Some? && Lookup(n, q).value.Folder? && key in Lookup(n, q).value.children
    ensures Lookup(n, q + [key]) == Some(Lookup(n, q).value.children[key])
    decreases |q|
  {
    if q != [] {
      assert (q + [key])[0] == q[0] && (q + [key])[1..] == q[1..] + [key];
      LookupExtend(n.children[q[0]], q[1..], key);
    }
  }

  /** No task path uses `fullPath` as a segment below the top level. */
  predicate NoFullPathSegment(tasks: seq<Task>)
  {
    forall i :: 0 <= i < |tasks| ==> FullPathKey !in Split(tasks[i].fullPath)[1..]
  }

  /** Without `fullPath` segments below the top level, every non-root node of the hierarchy is drawn open. */
  lemma NoFolderHidesBelow(h: map<string, Node>, tasks: seq<Task>, q: seq<string>)
    requires Supported(h, tasks) && NoFullPathSegment(tasks) && q != []
    ensures DrawnOpen(Lookup(Folder(h), q))
  {
    forall j | 0 <= j < |tasks| ensures !(q + [FullPathKey] <= Split(tasks[j].fullPath)) {
      var s := Split(tasks[j].fullPath);
      if |q| < |s| {
        assert s[1..][|q| - 1] == s[|q|];
      }
    }
    var n := Lookup(Folder(h), q);
    if n.Some? && n.value.Folder? && FullPathKey in n.value.children {
      LookupExtend(Folder(h), q, FullPathKey);
      assert false;
    }
  }

  /**
    With prefix-free paths none of which has a `fullPath` segment below the
    top level, every task appears in the panel at its path as a leaf label
    with its own style and icon.
   */
  lemma PanelShowsEveryTask(tasks: seq<Task>, current: Option<Task>, i: nat)
    requires PrefixFree(tasks) && NoFullPathSegment(tasks) && i < |tasks|
    ensures ItemAt(RenderRoot(HierarchyOf(tasks), current), Split(tasks[i].fullPath))
      == Some(LeafEntry(tasks[i], LeafStyleOf(tasks[i], current), IconOf(tasks[i])))
  {
    var h := HierarchyOf(tasks);
    var p := Split(tasks[i].fullPath);
    HierarchyReaches(tasks);
    HierarchySupported(tasks);
    var m := h[p[0]];
    var r := p[1..];
    forall k | 0 <= k < |r| ensures DrawnOpen(Lookup(m, r[..k])) {
      var q := [p[0]] + r[..k];
      assert q[0] == p[0] && q[1..] == r[..k];
      NoFolderHidesBelow(h, tasks, q);
    }
    VisibleIsLookup(m, r);
    RenderFollowsHierarchy(m, current, r);
  }

  /**
    A task whose path has a `fullPath` segment below the top level is not in
    the panel: the folder holding that segment is drawn as a leaf label.
   */
  lemma PanelHidesFullPathSegment(tasks: seq<Task>, current: Option<Task>, i: nat, k: nat)
    requires PrefixFree(tasks) && i < |tasks|
    requires 1 <= k < |Split(tasks[i].fullPath)| && Split(tasks[i].fullPath)[k] == FullPathKey
    ensures ItemAt(RenderRoot(HierarchyOf(tasks), current), Split(tasks[i].fullPath)).None?
  {
    var h := HierarchyOf(tasks);
    var p := Split(tasks[i].fullPath);
    HierarchyReaches(tasks);
    var m := h[p[0]];
    var r := p[1..];
    if k < |r| {
      LookupThroughFolders(m, r, k);
    } else {
      assert r[..k] == r;
    }
    HiddenBelowFullPath(m, r, k - 1);
    RenderFollowsHierarchy(m, current, r);
  }

  /** The main viewport's two conditional branches: the mounted component and the invalid-task notice. */
  datatype Viewport = Viewport(mounted: Option<Component>, notice: Option<string>)

  /**
    The component is mounted only for a current record that is valid and
    has one; the notice naming the path only for an invalid current record;
    never both, and nothing without a current record.
   */
  function ViewportOf(current: Option<Task>): (v: Viewport)
    ensures v.mounted.Some? <==> current.Some? && current.value.isValid && current.value.component.Some?
    ensures v.mounted.Some? ==> v.mounted == current.value.component
    ensures v.notice.Some? <==> current.Some? && !current.value.isValid
    ensures v.notice.Some? ==> v.notice.value == current.value.fullPath
    ensures !(v.mounted.Some? && v.notice.Some?)
    ensures current.None? ==> v == Viewport(None, None)
    ensures current.Some? && WellFormed(current.value) ==> v.mounted.Some? != v.notice.Some?
  {
    var mounted := if current.Some? && current.value.isValid && current.value.component.Some? then current.value.component else None;
    var notice := if current.Some? && !current.value.isValid then Some(current.value.fullPath) else None;
    Viewport(mounted, notice)
  }

  /** The toggle button's caption `Task {id}: {name}`, as its two fields; empty without a current task. */
  function ButtonLabel(current: Option<Task>): (l: Option<(string, string)>)
    ensures l.None? <==> current.None?
  {
    match current
    case None => None
    case Some(t) => Some((t.id, t.name))
  }

  /**
    For the record of a discovered module the caption names the file: the
    path's third segment (its task folder) for a loaded module, the whole
    path for a failed one, and the path's last segment in both cases.
   */
  lemma LabelNamesFile(path: string, outcome: LoadOutcome)
    requires Loadable(path, outcome)
    ensures var l := ButtonLabel(Some(Derive(path, outcome))).value;
      && l.1 == LastSegment(path)
      && (outcome.Loaded? ==> l.0 == Split(path)[2])
      && (outcome.Failed? ==> l.0 == path)
  {
  }
}
