# Preview runner: a Dafny model

The preview runner is a single React component. When the page mounts, it
discovers a module for every `./tasks/**/*.jsx` file and loads each one.
It turns every module into a task record `{id, name, component, fullPath,
isValid}`, sorts the records by path and selects one. The screen then shows:

- the selected task's component, or a notice naming the invalid file;
- a toggle button labelled `Task {id}: {name}`;
- when toggled on, a folder hierarchy of all task paths, in which a click on
  a file selects it.

This project models the deterministic part of the component and proves
what it guarantees. Discovery and the asynchronous loads are given as
data: a sequence of `(path, outcome)` pairs, where an outcome is either a
failure or a loaded module with an optional default export.

Modules (one per concern, each in its own file):

- `Wrappers`: `Option`.
- `Paths`: `split('/')` with JavaScript semantics, `join`, and the last
  segment (`pop()`). `Split` is proved injective and the inverse of `Join`.
  The last segment is proved to be the path's longest suffix without a
  separator.
- `Collation`: the order used for sorting paths. It is lexicographic on
  characters and is proved to be a total order.
- `TaskLoader`:
  - record derivation and the `for…in` load loop (`LoadAll`, a loop proved
    against `DeriveAll`/`LoadErrors`);
  - the in-place sort on an `array` (`SortByFullPath`: sorted and a
    permutation);
  - the initial selection;
  - facts about the committed list: one record per path, distinct paths,
    and uniqueness of the sorted arrangement.
- `Hierarchy`: the folder trie as a `Folder(map) | Leaf(task)` tree.
  - `Insert` is one cursor walk; `BuildHierarchy` is the outer loop, proved
    against `HierarchyOf`.
  - Lemmas show that an existing key is never overwritten, so the first
    write wins and leaves survive later inserts.
  - With prefix-free paths, following a task's segments from the root
    passes only through folders and ends at that task.
- `View`:
  - the leaf style, the icon and the rendered panel tree, built with the
    source's own leaf test (an object without a `fullPath` property is a
    folder), so it follows the hierarchy down to any folder that has a child
    named `fullPath`;
  - the main viewport;
  - the button caption.
- `PreviewApp`: the class `PreviewRunner`.
  - Fields: `tasks`, `currentTask`, `showHierarchy`, and `log` (the
    console).
  - Methods: `ImportTasks`, `SelectTask` (a click on a leaf) and
    `ToggleHierarchy`.
  - Read-only views: `Screen` and `Panel`.

## Model

| member | source | states |
|---|---|---|
| Paths.Split | src/preview_runner.jsx:20 | `split('/')` gives one more segment than there are separators, and no segment contains a separator |
| Paths.JoinSplit | src/preview_runner.jsx:20 | Joining the segments with `/` gives back the path, so splitting loses nothing |
| Paths.SplitInjective | src/preview_runner.jsx:54 | Two paths with the same segments are the same path, so a trie path identifies a `fullPath` |
| Paths.SplitPrepend | src/preview_runner.jsx:20 | A separator-free prefix is glued onto the first segment |
| Paths.SplitJoin | src/preview_runner.jsx:20 | Splitting joined separator-free segments gives back exactly those segments |
| Paths.LastSegment | src/preview_runner.jsx:22 | `pop()` of the segments contains no `/`; `LastSegmentIsSuffix` states which suffix it is |
| Paths.LastSegmentIsSuffix | src/preview_runner.jsx:22 | `pop()` of the segments is the path's longest suffix free of `/`: it ends the path and follows either nothing or a `/` |
| Collation.PathLeq | src/preview_runner.jsx:42 | `a` is no later than `b` exactly when `a` is a prefix of `b` or `a` has the smaller character at the first position where they differ |
| Collation.FirstDifferenceTail | src/preview_runner.jsx:42 | With equal first characters, `a` is smaller at the first difference exactly when its tail is smaller than `b`'s tail at theirs |
| Collation.PathLeqReflexive | src/preview_runner.jsx:42 | The path order is reflexive |
| Collation.PathLeqAntisymmetric | src/preview_runner.jsx:42 | Two paths each no later than the other are equal |
| Collation.PathLeqTransitive | src/preview_runner.jsx:42 | The path order is transitive |
| Collation.PathLeqTotal | src/preview_runner.jsx:42 | Any two paths are comparable |
| TaskLoader.Derive | src/preview_runner.jsx:20-38 | A loaded module gives id = third segment, name = last segment, its default export as component, valid iff the export is present; a failed one gives id = path, name = last segment, no component, invalid; in both cases valid iff a component is present |
| TaskLoader.DeriveAll | src/preview_runner.jsx:17-40 | One record per discovered path, in discovery order, each the derived record of that path |
| TaskLoader.FailedIndices | src/preview_runner.jsx:31-32 | The positions of the failed modules, in increasing order, every failed position included and nothing else |
| TaskLoader.LoadErrors | src/preview_runner.jsx:17-40 | The log holds, in discovery order, one error per failed module and nothing else: its k-th entry is the path and detail of the k-th failed module; so every failure is logged and the log is empty exactly when every module loaded |
| TaskLoader.ErrorsAtExtend | src/preview_runner.jsx:17-40 | An in-order error log for the modules before the last one stays in order for all of them, and grows by the last module's error exactly when that module failed |
| TaskLoader.ErrorsAtIndices | src/preview_runner.jsx:31-32 | An error log in failure order contains every failed module's error, and is empty exactly when every module loaded |
| TaskLoader.LoadAll | src/preview_runner.jsx:15-40 | The loop pushes exactly `DeriveAll` and logs exactly `LoadErrors`; a failure does not stop the loop |
| TaskLoader.InsertingSwap | src/preview_runner.jsx:42 | Swapping the moving record with a larger predecessor keeps the insertion invariant one step further left |
| TaskLoader.InsertingDone | src/preview_runner.jsx:42 | When the predecessor is no larger, the sorted prefix grows by one |
| TaskLoader.Swap | src/preview_runner.jsx:42 | Exchanges two array cells and keeps the same records |
| TaskLoader.SortByFullPath | src/preview_runner.jsx:42 | The in-place sort leaves the array ascending by `fullPath` and a permutation of its old contents |
| TaskLoader.ImportList | src/preview_runner.jsx:15-42 | The committed list is sorted by path, a permutation of the derived records, every record well-formed, and the errors are `LoadErrors` |
| TaskLoader.FindValid | src/preview_runner.jsx:44 | `find(task => task.isValid)`: the index of a valid record with none valid before it, or none exactly when no record is valid |
| TaskLoader.InitialSelection | src/preview_runner.jsx:43-44 | No selection exactly for an empty list; otherwise a record of the list, namely the first valid one, or element 0 when none is valid |
| TaskLoader.SelectionIsSmallest | src/preview_runner.jsx:42-44 | On the sorted list the selection is the valid record with the smallest path, or the smallest path of all when none is valid |
| TaskLoader.SortedPermutationHead | src/preview_runner.jsx:42 | Two sorted arrangements of the same records with distinct paths start with the same record |
| TaskLoader.SortedPermutationUnique | src/preview_runner.jsx:42 | Two sorted arrangements of the same records with distinct paths are equal, so the committed order does not depend on the sort algorithm or the discovery order |
| TaskLoader.ArrangementWellFormed | src/preview_runner.jsx:24-38 | Every record of any arrangement of the derived records is valid exactly when it carries a component |
| TaskLoader.ArrangementHasValid | src/preview_runner.jsx:29-44 | An arrangement of the derived records has one per module, and holds a valid record exactly when some module has a default export |
| TaskLoader.PermutationDistinct | src/preview_runner.jsx:42 | Rearranging records with distinct paths keeps them distinct |
| TaskLoader.ImportedList | src/preview_runner.jsx:17-42 | After the loop and sort there is exactly one record per discovered path: every derived record is present and every record is a derived one; with distinct discovery keys no path occurs twice |
| Hierarchy.Insert | src/preview_runner.jsx:54-61 | Has no contract of its own; one cursor walk, characterised by `InsertTopLevel`, `InsertKeeps`, `InsertAdds`, `InsertExistingIsNoop`, `InsertPlaces` and `Obstacle` |
| Hierarchy.InsertTopLevel | src/preview_runner.jsx:56-58 | One walk adds at most its first segment to the folder it starts in and leaves every other entry as it was |
| Hierarchy.HierarchyOf | src/preview_runner.jsx:52-62 | Has no contract of its own; the trie built by `tasks.forEach`, characterised by `RootKeys`, `HierarchySupported`, `HierarchyReaches` and `LeavesSurvive` |
| Hierarchy.RootKeys | src/preview_runner.jsx:52-62 | The top-level entries of the hierarchy are exactly the first segments of the task paths |
| Hierarchy.BuildHierarchy | src/preview_runner.jsx:52-62 | The nested loops build exactly `HierarchyOf(tasks)`, the tasks inserted in list order |
| Hierarchy.LookupThroughFolders | src/preview_runner.jsx:55-60 | Every proper prefix of a path that leads to a node leads to a folder |
| Hierarchy.InsertKeeps | src/preview_runner.jsx:57-58 | Inserting never removes a node, never changes a leaf, and never turns a folder into a leaf |
| Hierarchy.InsertAdds | src/preview_runner.jsx:57-58 | A node that inserting adds lies on the inserted path, and a new leaf is the inserted task at exactly that path |
| Hierarchy.InsertExistingIsNoop | src/preview_runner.jsx:57 | Inserting at a path that already leads to a node changes nothing (first write wins) |
| Hierarchy.InsertPlaces | src/preview_runner.jsx:56-60 | When no leaf or node blocks the path, inserting puts the task's leaf at that path |
| Hierarchy.Obstacle | src/preview_runner.jsx:57-60 | When the path is blocked, there is a node at the whole path or a leaf at a proper prefix of it |
| Hierarchy.HierarchySupported | src/preview_runner.jsx:52-62 | Every leaf of the hierarchy is one of the tasks at its own path, and every node lies on some task's path |
| Hierarchy.NoNodeAtPath | src/preview_runner.jsx:52-62 | A path unrelated to all earlier paths has no node in the hierarchy built so far |
| Hierarchy.PlaceableAfter | src/preview_runner.jsx:52-62 | A task whose path is unrelated to every earlier path can be placed as a leaf |
| Hierarchy.HierarchyReaches | src/preview_runner.jsx:52-69 | With distinct, segment-wise prefix-free paths, following any task's segments from the root ends at that very task |
| Hierarchy.LeavesSurvive | src/preview_runner.jsx:57-58 | A leaf in the tree stays unchanged through all later insertions, so a repeated path keeps its first task |
| View.IsCurrent | src/preview_runner.jsx:81 | Has no contract of its own; the `fullPath` comparison with the current task, characterised by `LeafStyleOf` and `SelectedIsCurrent` |
| View.LeafStyleOf | src/preview_runner.jsx:79-85 | Warning exactly for an invalid leaf; selected exactly for a valid leaf whose path is the current task's; plain exactly for the other valid leaves |
| View.IconOf | src/preview_runner.jsx:93-97 | The file icon exactly for a valid leaf, and the alert icon exactly when the style is the warning, whatever the selection |
| View.SelectedIsCurrent | src/preview_runner.jsx:79-85 | Among records with distinct paths, the only one drawn as selected is the current record, and only when it is valid |
| View.RenderNode | src/preview_runner.jsx:64-105 | The leaf test: a folder entry exactly for a folder object without a `fullPath` child; a leaf label with the task's style and icon exactly for a task; a folder with a `fullPath` child is drawn as a label, with the warning style exactly when it has no `isValid` child, and never selected |
| View.RenderRoot | src/preview_runner.jsx:107 | The panel's root is a folder entry with one entry per top-level key of the hierarchy |
| View.RenderFollowsHierarchy | src/preview_runner.jsx:64-107 | The rendered panel has the shape of the visible part of the hierarchy: each node reachable through folders without a `fullPath` child is drawn at its own path, and nothing is drawn elsewhere |
| View.VisibleIsLookup | src/preview_runner.jsx:67-75 | A visible node is the hierarchy's node at that path, and a node whose every ancestor is drawn as a folder is visible |
| View.HiddenBelowFullPath | src/preview_runner.jsx:69 | Nothing below a node named `fullPath` is visible, since its folder is drawn as a label |
| View.LookupExtend | src/preview_runner.jsx:60 | A child of the node at a path is the node at the path one segment longer |
| View.NoFolderHidesBelow | src/preview_runner.jsx:52-69 | When no task path has a `fullPath` segment below the top level, no node of the hierarchy below the root is a folder with a `fullPath` child |
| View.PanelShowsEveryTask | src/preview_runner.jsx:52-107 | With prefix-free paths none of which has a `fullPath` segment below the top level, every task appears in the panel at its path, with its own style and icon |
| View.PanelHidesFullPathSegment | src/preview_runner.jsx:52-107 | A task whose path has a `fullPath` segment below the top level does not appear in the panel at its path |
| View.ViewportOf | src/preview_runner.jsx:113-121 | The component is mounted iff the current task is valid and has it; the notice naming `fullPath` iff the current task is invalid; never both; nothing without a current task |
| View.ButtonLabel | src/preview_runner.jsx:127-131 | The caption is present exactly when a task is current |
| View.LabelNamesFile | src/preview_runner.jsx:127-131 | For a discovered module's record, the caption shows the last path segment, and the third segment (loaded) or the whole path (failed) as the id |
| PreviewApp.PreviewRunner.constructor | src/preview_runner.jsx:8-10 | Starts with no tasks, no current task, the panel hidden and an empty console |
| PreviewApp.PreviewRunner.ImportTasks | src/preview_runner.jsx:13-46 | Commits the derived records sorted by path and as a permutation, appends the load errors to the console, selects `InitialSelection` of the sorted list when it is non-empty and otherwise keeps the previous selection, and leaves the panel flag alone |
| PreviewApp.PreviewRunner.SelectTask | src/preview_runner.jsx:86-91 | A click makes exactly that record current, valid or not; a warning naming its path is appended only when it is invalid |
| PreviewApp.PreviewRunner.ToggleHierarchy | src/preview_runner.jsx:124 | Negates `showHierarchy` and changes nothing else |
| PreviewApp.PreviewRunner.Screen | src/preview_runner.jsx:113-121 | With a current task exactly one of its component and its notice is shown, and nothing without one |
| PreviewApp.PreviewRunner.Panel | src/preview_runner.jsx:133-138 | The panel is rendered exactly while `showHierarchy` holds, and its root is a folder |
| PreviewApp.RepeatedImport | src/preview_runner.jsx:13-49 | Two loading passes over the same discovery (as when the mount effect runs twice), whose keys are distinct, commit the same list and the same selection |
| PreviewApp.StartupScreen | src/preview_runner.jsx:43-46 | After loading: nothing is shown when no module was found; a component is mounted when some module has a default export; otherwise the notice for the smallest path is shown |

Proof helpers, with no row of their own because they state nothing the
source promises: `Paths.Separators`, `Paths.Join`, `Paths.JoinGlue`,
`Collation.SmallerAtFirstDifference`, `Collation.FirstDifferenceInTail`,
`Collation.FirstDifferenceFromTail`, `TaskLoader.ErrorsAt`,
`TaskLoader.ToArray`, `TaskLoader.MultisetTail`,
`TaskLoader.DistinctCountsOnce`, `TaskLoader.TwiceCountsTwice`,
`TaskLoader.SameMembers`, `View.ItemAt`, `View.Visible`, `View.DrawnOpen`.

## Left out

- Discovery (`import.meta.glob`), dynamic `import()` and `await` are host
  services. They are replaced by the input sequence of `(path, outcome)`
  pairs. Its order is the enumeration order of the glob object.
- React hooks, `useEffect`, JSX markup, CSS class strings, icon images and
  mounting are left out.
  - State is the fields of `PreviewRunner`.
  - Styles, icons and viewport branches are enumerations.
  - A component is an opaque handle.
- `console.error` and `console.warn` are modelled as events appended to
  `log`. The exact message text and the error object are not modelled.
- Collation.PathLeq: `localeCompare` is locale-dependent. It is modelled
  as plain lexicographic order on characters, a total order, which is all
  that sorting and "first in sorted order" rely on.
- TaskLoader.SortByFullPath: the library's sort algorithm is not visible.
  An insertion sort stands for it. The model proves only what any correct
  comparison sort gives: the result is sorted and is a permutation. With
  distinct paths that determines the result (`SortedPermutationUnique`).
- TaskLoader.Derive: a default export that is present but falsy (`0`,
  `""`) is treated as absent. The model keeps no such value.
- TaskLoader.Loadable: the precondition that a loaded path has a third
  segment. The glob pattern guarantees one. The source would store an
  undefined id otherwise.
- Hierarchy.Insert: the trie is built on values. The model takes a map of
  children and returns a new one, where the source moves a cursor through
  shared mutable objects. Aliasing between the tree and the task objects
  is not captured.
- Hierarchy.Insert: when the cursor reaches a leaf before the last
  segment, the source descends into the task object and may add a property
  to it. This is modelled as no change to the tree. Because of it,
  `HierarchyReaches` and `PanelShowsEveryTask` assume prefix-free paths.
- Hierarchy.Insert: inherited prototype keys such as `constructor` count
  as present in a JavaScript object. They are not modelled: a map holds
  only the keys that were inserted.
- View.RenderNode: `Object.entries` order is not modelled. Entries are a
  map, and the render is an unordered tree.
- View.RenderNode: a task record is always drawn as a label. In the source
  a record whose `fullPath` is empty would be drawn as a folder of its
  properties; discovered paths are never empty, so the model does not
  represent that case.
- View.RenderNode: a folder object that has a `fullPath` child is drawn as
  a label, as in the source. Clicking that label makes the folder object
  itself current, which is not a task record; the model records no click on
  such a label.
- PreviewApp.PreviewRunner.ImportTasks: one call models one run of the
  mount effect. Under `<StrictMode>` in development React runs the effect
  twice, so the loads and their error messages happen twice.
  `RepeatedImport` shows that a second run commits the same list and
  selection; each call appends its own errors to `log`.
- The panel's heading and the button's layout are presentation and are
  not modelled.
