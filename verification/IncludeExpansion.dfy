/** Static expansion of task includes for the job-template preview: the recursion that shares one mutable set of
    open files, and the expansion it computes. */
module IncludeExpansion {
  import opened Prelude

  type Path = string

  /** Include targets are resolved paths; a role name stands for its tasks/main.yml. */
  datatype Task =
    | ImportTasks(target: Path)
    | IncludeTasks(target: Path, conditional: bool)
    | TemplatedInclude
    | ImportRole(role: string)
    | IncludeRole(role: string)
    | Plain(dynamic: bool)
    | NotATask

  datatype File = TaskList(tasks: seq<Task>) | NotAList

  type FileTree = map<Path, File>

  datatype Reason =
    | IncludeLoop(path: Path) | NonList(path: Path)
    | ImportMissing(target: Path, source: Path) | IncludeMissing(target: Path, source: Path) | RoleMissing(role: string)

  datatype Confidence = Direct | Dynamic | Unknown

  datatype Node = Node(task: Task, source: Path, confidence: Confidence, children: seq<Node>)

  function RoleMain(role: string): Path { "roles/" + role + "/tasks/main.yml" }

  /** The file a task opens; a role entry without a name opens none. */
  function Target(task: Task): Option<Path> {
    match task
    case ImportTasks(target) => Some(target)
    case IncludeTasks(target, _) => Some(target)
    case ImportRole(role) => if role == "" then None else Some(RoleMain(role))
    case IncludeRole(role) => if role == "" then None else Some(RoleMain(role))
    case _ => None
  }

  function MissingReason(task: Task, source: Path): Reason
    requires Target(task).Some?
  {
    match task
    case ImportTasks(target) => ImportMissing(target, source)
    case IncludeTasks(target, _) => IncludeMissing(target, source)
    case _ => RoleMissing(task.role)
  }

  function ConfidenceOf(task: Task): Confidence {
    match task
    case IncludeTasks(_, conditional) => if conditional then Dynamic else Direct
    case TemplatedInclude => Unknown
    case IncludeRole(_) => Dynamic
    case Plain(dynamic) => if dynamic then Dynamic else Direct
    case _ => Direct
  }

  function NodesFor(task: Task, source: Path, children: seq<Node>): seq<Node> {
    if task.NotATask? then [] else [Node(task, source, ConfidenceOf(task), children)]
  }

  // ----- What the code does: the set of open files is threaded through -----

  datatype Parsed = Parsed(nodes: seq<Node>, reasons: seq<Reason>, seen: set<Path>)

  function Unopened(files: FileTree, seen: set<Path>): nat { |files.Keys - seen| }

  lemma FewerUnopened(files: FileTree, a: set<Path>, b: set<Path>)
    requires a <= b
    ensures Unopened(files, b) <= Unopened(files, a)
    ensures (exists p :: p in files && p !in a && p in b) ==> Unopened(files, b) < Unopened(files, a)
  {
    SubsetSize(files.Keys - b, files.Keys - a);
    if p :| p in files && p !in a && p in b {
      assert p in files.Keys - a && p !in files.Keys - b;
    }
  }

  function ParseFile(files: FileTree, path: Path, seen: set<Path>): (r: Parsed)
    requires path in files
    ensures r.seen >= seen
    decreases Unopened(files, seen), 0, 0
  {
    if path in seen then Parsed([], [IncludeLoop(path)], seen)
    else if files[path].NotAList? then Parsed([], [NonList(path)], seen + {path})
    else
      FewerUnopened(files, seen, seen + {path});
      var r := ParseTasks(files, path, files[path].tasks, seen + {path});
      Parsed(r.nodes, r.reasons, r.seen - {path})
  }

  function ParseTasks(files: FileTree, source: Path, tasks: seq<Task>, seen: set<Path>): (r: Parsed)
    ensures r.seen >= seen
    decreases Unopened(files, seen), 2, |tasks|
  {
    if tasks == [] then Parsed([], [], seen)
    else
      var front := ParseTasks(files, source, Init(tasks), seen);
      FewerUnopened(files, seen, front.seen);
      var last := ParseTask(files, source, Last(tasks), front.seen);
      Parsed(front.nodes + last.nodes, front.reasons + last.reasons, last.seen)
  }

  function ParseTask(files: FileTree, source: Path, task: Task, seen: set<Path>): (r: Parsed)
    ensures r.seen >= seen
    decreases Unopened(files, seen), 1, 0
  {
    var target := Target(task);
    if target.None? then Parsed(NodesFor(task, source, []), [], seen)
    else if target.value !in files then Parsed(NodesFor(task, source, []), [MissingReason(task, source)], seen)
    else
      var r := ParseFile(files, target.value, seen);
      Parsed(NodesFor(task, source, r.nodes), r.reasons, r.seen)
  }

  /** The preview's recursion over its two mutable accumulators; it ends on every finite tree, cycles included. */
  class Expander {
    const files: FileTree
    var seen: set<Path>
    var reasons: seq<Reason>

    constructor (files: FileTree)
      ensures this.files == files && seen == {} && reasons == []
    {
      this.files := files;
      seen, reasons := {}, [];
    }

    method ParseTaskFile(path: Path) returns (nodes: seq<Node>)
      requires path in files
      modifies this
      ensures var r := ParseFile(files, path, old(seen));
        nodes == r.nodes && reasons == old(reasons) + r.reasons && seen == r.seen
      decreases Unopened(files, seen), 0, 0
    {
      if path in seen {
        reasons := reasons + [IncludeLoop(path)];
        return [];
      }
      FewerUnopened(files, seen, seen + {path});
      seen := seen + {path};
      if files[path].NotAList? {
        reasons := reasons + [NonList(path)];
        return [];
      }
      var tasks := files[path].tasks;
      nodes := [];
      ghost var entered := seen;
      var i := 0;
      while i < |tasks|
        invariant 0 <= i <= |tasks|
        invariant entered == old(seen) + {path}
        invariant var r := ParseTasks(files, path, tasks[..i], entered);
          nodes == r.nodes && reasons == old(reasons) + r.reasons && seen == r.seen
      {
        assert Init(tasks[..i + 1]) == tasks[..i];
        FewerUnopened(files, entered, seen);
        var more := PreviewTask(path, tasks[i]);
        nodes := nodes + more;
        i := i + 1;
      }
      assert tasks[..i] == tasks;
      seen := seen - {path};
    }

    method PreviewTask(source: Path, task: Task) returns (nodes: seq<Node>)
      modifies this
      ensures var r := ParseTask(files, source, task, old(seen));
        nodes == r.nodes && reasons == old(reasons) + r.reasons && seen == r.seen
      decreases Unopened(files, seen), 1, 0
    {
      var children := [];
      var target := Target(task);
      if target.Some? {
        if target.value in files {
          children := ParseTaskFile(target.value);
        } else {
          reasons := reasons + [MissingReason(task, source)];
        }
      }
      nodes := NodesFor(task, source, children);
    }
  }

  // ----- The pure expansion: only the ancestors are carried -----

  datatype Expanded = Expanded(nodes: seq<Node>, reasons: seq<Reason>)

  function ExpandFile(files: FileTree, path: Path, open: set<Path>): Expanded
    requires path in files
    decreases Unopened(files, open), 0, 0
  {
    if path in open then Expanded([], [IncludeLoop(path)])
    else if files[path].NotAList? then Expanded([], [NonList(path)])
    else
      FewerUnopened(files, open, open + {path});
      ExpandTasks(files, path, files[path].tasks, open + {path})
  }

  function ExpandTasks(files: FileTree, source: Path, tasks: seq<Task>, open: set<Path>): Expanded
    decreases Unopened(files, open), 2, |tasks|
  {
    if tasks == [] then Expanded([], [])
    else
      var front := ExpandTasks(files, source, Init(tasks), open);
      var last := ExpandTask(files, source, Last(tasks), open);
      Expanded(front.nodes + last.nodes, front.reasons + last.reasons)
  }

  function ExpandTask(files: FileTree, source: Path, task: Task, open: set<Path>): Expanded
    decreases Unopened(files, open), 1, 0
  {
    var target := Target(task);
    if target.None? then Expanded(NodesFor(task, source, []), [])
    else if target.value !in files then Expanded(NodesFor(task, source, []), [MissingReason(task, source)])
    else
      var r := ExpandFile(files, target.value, open);
      Expanded(NodesFor(task, source, r.nodes), r.reasons)
  }

  // ----- How the two differ -----

  /** The files reported as not holding a list. */
  function NonLists(reasons: seq<Reason>): set<Path> {
    set r | r in reasons && r.NonList? :: r.path
  }

  /** A non-list file left in the set is reported as an include loop when it is met again. */
  function Relabel(reasons: seq<Reason>, leaked: set<Path>): seq<Reason> {
    if reasons == [] then []
    else
      var last := Last(reasons);
      Relabel(Init(reasons), leaked)
      + [if last.NonList? && (last.path in leaked || last.path in NonLists(Init(reasons))) then IncludeLoop(last.path)
         else last]
  }

  lemma {:induction false} RelabelAppend(a: seq<Reason>, b: seq<Reason>, leaked: set<Path>)
    ensures Relabel(a + b, leaked) == Relabel(a, leaked) + Relabel(b, leaked + NonLists(a))
  {
    if b == [] {
      assert a + b == a;
    } else {
      assert Init(a + b) == a + Init(b) && Last(a + b) == Last(b);
      RelabelAppend(a, Init(b), leaked);
    }
  }

  /** The open set is the ancestors plus leaked non-list files. */
  ghost predicate Open(files: FileTree, open: set<Path>, leaked: set<Path>) {
    && (forall p :: p in open && p in files ==> files[p].TaskList?)
    && (forall p :: p in leaked ==> p in files && files[p].NotAList?)
  }

  ghost predicate Matches(p: Parsed, e: Expanded, open: set<Path>, leaked: set<Path>) {
    && p.nodes == e.nodes
    && p.reasons == Relabel(e.reasons, leaked)
    && p.seen == open + leaked + NonLists(e.reasons)
  }

  lemma {:induction false} FileMatches(files: FileTree, path: Path, open: set<Path>, leaked: set<Path>)
    requires path in files && Open(files, open, leaked)
    ensures Matches(ParseFile(files, path, open + leaked), ExpandFile(files, path, open), open, leaked)
    ensures Open(files, open, leaked + NonLists(ExpandFile(files, path, open).reasons))
    decreases Unopened(files, open), 0, 0
  {
    assert Relabel([], leaked) == [];
    if path in open {
      assert Init([IncludeLoop(path)]) == [];
    } else if files[path].NotAList? {
      assert Init([NonList(path)]) == [];
      assert NonLists([NonList(path)]) == {path};
    } else {
      FewerUnopened(files, open, open + {path});
      assert (open + leaked) + {path} == (open + {path}) + leaked;
      TasksMatch(files, path, files[path].tasks, open + {path}, leaked);
      var bad := NonLists(ExpandFile(files, path, open).reasons);
      assert path !in leaked + bad;
      assert (open + {path}) + leaked + bad - {path} == open + leaked + bad;
    }
  }

  lemma {:induction false} TasksMatch(files: FileTree, source: Path, tasks: seq<Task>, open: set<Path>, leaked: set<Path>)
    requires Open(files, open, leaked)
    ensures Matches(ParseTasks(files, source, tasks, open + leaked), ExpandTasks(files, source, tasks, open), open, leaked)
    ensures Open(files, open, leaked + NonLists(ExpandTasks(files, source, tasks, open).reasons))
    decreases Unopened(files, open), 2, |tasks|
  {
    if tasks != [] {
      TasksMatch(files, source, Init(tasks), open, leaked);
      var front := ExpandTasks(files, source, Init(tasks), open);
      var more := leaked + NonLists(front.reasons);
      assert open + leaked + NonLists(front.reasons) == open + more;
      TaskMatches(files, source, Last(tasks), open, more);
      var last := ExpandTask(files, source, Last(tasks), open);
      RelabelAppend(front.reasons, last.reasons, leaked);
      assert more + NonLists(last.reasons) == leaked + NonLists(front.reasons + last.reasons);
    }
  }

  lemma {:induction false} TaskMatches(files: FileTree, source: Path, task: Task, open: set<Path>, leaked: set<Path>)
    requires Open(files, open, leaked)
    ensures Matches(ParseTask(files, source, task, open + leaked), ExpandTask(files, source, task, open), open, leaked)
    ensures Open(files, open, leaked + NonLists(ExpandTask(files, source, task, open).reasons))
    decreases Unopened(files, open), 1, 0
  {
    var target := Target(task);
    if target.None? {
      NoReason(open, leaked);
    } else if target.value in files {
      FileMatches(files, target.value, open, leaked);
    } else {
      OneReason(MissingReason(task, source), leaked);
    }
  }

  lemma NoReason(open: set<Path>, leaked: set<Path>)
    ensures NonLists([]) == {} && Relabel([], leaked) == [] && leaked + NonLists([]) == leaked
    ensures open + leaked + NonLists([]) == open + leaked
  {
  }

  lemma OneReason(r: Reason, leaked: set<Path>)
    requires !r.NonList?
    ensures Relabel([r], leaked) == [r] && NonLists([r]) == {}
  {
    assert Init([r]) == [] && Relabel([], leaked) == [];
  }

  /** No file is reported as a non-list twice. */
  ghost predicate NonListsOnce(reasons: seq<Reason>) {
    forall i, j :: 0 <= i < j < |reasons| && reasons[i].NonList? ==> reasons[i] != reasons[j]
  }

  lemma NonListsOnceStep(reasons: seq<Reason>)
    requires reasons != []
    ensures var last := Last(reasons);
      NonListsOnce(reasons) <==> NonListsOnce(Init(reasons)) && !(last.NonList? && last.path in NonLists(Init(reasons)))
  {
    var front, last := Init(reasons), Last(reasons);
    if last.NonList? && last.path in NonLists(front) {
      assert last in front;
      var i :| 0 <= i < |front| && front[i] == last;
      assert reasons[i] == reasons[|front|];
    } else if NonListsOnce(front) {
      forall i, j | 0 <= i < j < |reasons| && reasons[i].NonList? ensures reasons[i] != reasons[j] {
        assert reasons[i] == front[i] && front[i] in front;
        if j < |front| {
          assert reasons[j] == front[j];
        }
      }
    }
    if NonListsOnce(reasons) {
      forall i, j | 0 <= i < j < |front| && front[i].NonList? ensures front[i] != front[j] {
        assert reasons[i] != reasons[j];
      }
    }
  }

  lemma SameLists(a: seq<Reason>, b: seq<Reason>)
    requires a != [] && b != []
    ensures a == b <==> Init(a) == Init(b) && Last(a) == Last(b)
  {
    assert a == Init(a) + [Last(a)] && b == Init(b) + [Last(b)];
  }

  lemma {:induction false} RelabelNothing(reasons: seq<Reason>)
    ensures |Relabel(reasons, {})| == |reasons|
    ensures Relabel(reasons, {}) == reasons <==> NonListsOnce(reasons)
  {
    if reasons != [] {
      RelabelNothing(Init(reasons));
      NonListsOnceStep(reasons);
      var r := Relabel(reasons, {});
      assert Init(r) == Relabel(Init(reasons), {});
      SameLists(r, reasons);
    }
  }

  /** On every file tree the preview's tree is the pure expansion.  The set of open files is restored exactly when
      no non-list file was opened, and the reasons agree exactly when none was opened twice. */
  lemma ExpansionIsPure(files: FileTree, path: Path)
    requires path in files
    ensures var p := ParseFile(files, path, {});
      var e := ExpandFile(files, path, {});
      && p.nodes == e.nodes
      && (p.seen == {} <==> NonLists(e.reasons) == {})
      && (p.reasons == e.reasons <==> NonListsOnce(e.reasons))
  {
    FileMatches(files, path, {}, {});
    var none: set<Path> := {};
    assert none + none == none;
    RelabelNothing(ExpandFile(files, path, {}).reasons);
  }

  /** A non-list file met twice: the code reports a loop where there is none. */
  lemma NonListMetTwice() returns (files: FileTree)
    ensures "a" in files
    ensures ExpandFile(files, "a", {}).reasons == [NonList("b"), NonList("b")]
    ensures ParseFile(files, "a", {}).reasons == [NonList("b"), IncludeLoop("b")]
  {
    var step := IncludeTasks("b", false);
    files := map["a" := TaskList([step, step]), "b" := NotAList];
    var open: set<Path> := {"a"};
    assert Init([step, step]) == [step] && Init([step]) == [];
    assert ExpandFile(files, "b", open).reasons == [NonList("b")];
    assert ExpandTask(files, "a", step, open).reasons == [NonList("b")];
    assert ExpandTasks(files, "a", [step], open).reasons == [NonList("b")];
    assert ExpandTasks(files, "a", [step, step], open).reasons == [NonList("b"), NonList("b")];
    assert {} + {"a"} == open;
    var none: set<Path> := {};
    assert none + none == none;
    FileMatches(files, "a", {}, {});
    RelabelTwice(NonList("b"));
  }

  lemma RelabelTwice(r: Reason)
    requires r.NonList?
    ensures Relabel([r, r], {}) == [r, IncludeLoop(r.path)]
  {
    assert Init([r, r]) == [r] && Init([r]) == [] && Relabel([], {}) == [];
    assert NonLists([r]) == {r.path} && NonLists([]) == {};
  }

  /** The same for a task of a play, which is previewed with a set of its own. */
  lemma TaskExpansionIsPure(files: FileTree, source: Path, task: Task)
    ensures var p := ParseTask(files, source, task, {});
      var e := ExpandTask(files, source, task, {});
      p.nodes == e.nodes && (p.reasons == e.reasons <==> NonListsOnce(e.reasons))
  {
    TaskMatches(files, source, task, {}, {});
    var none: set<Path> := {};
    assert none + none == none;
    RelabelNothing(ExpandTask(files, source, task, {}).reasons);
  }

  // ----- What the preview must show -----

  /** The file that a task names: the path of an import or include, with or without a condition, or the main task
      file of a named role. */
  ghost predicate Names(task: Task, file: Path) {
    match task
    case ImportTasks(target) => file == target
    case IncludeTasks(target, _) => file == target
    case ImportRole(role) => role != "" && file == "roles/" + role + "/tasks/main.yml"
    case IncludeRole(role) => role != "" && file == "roles/" + role + "/tasks/main.yml"
    case _ => false
  }

  /** An include whose path is a template is unknown; a condition, a loop or an included role makes a task dynamic. */
  ghost predicate Rated(task: Task, confidence: Confidence) {
    && (confidence == Unknown <==> task == TemplatedInclude)
    && (confidence == Dynamic <==> task.IncludeRole? || (task.IncludeTasks? && task.conditional) || (task.Plain? && task.dynamic))
  }

  function Entries(tasks: seq<Task>): seq<Task> { Filter(tasks, (t: Task) => t != NotATask) }

  /** The preview of a file below these open ones.  A file that is missing, open already or no task list shows nothing.
      Any other shows a node for each entry of its list, in order, and below the node the preview of the file that the
      entry names, if it names one. */
  ghost predicate Shows(files: FileTree, path: Path, open: set<Path>, nodes: seq<Node>)
    decreases nodes
  {
    if path !in files || path in open || files[path].NotAList? then nodes == []
    else ShowsEntries(files, path, Entries(files[path].tasks), open + {path}, nodes)
  }

  ghost predicate ShowsEntries(files: FileTree, source: Path, entries: seq<Task>, open: set<Path>, nodes: seq<Node>)
    decreases nodes, 0
  {
    |nodes| == |entries| && forall i :: 0 <= i < |nodes| ==>
      && nodes[i].task == entries[i] && nodes[i].source == source && Rated(entries[i], nodes[i].confidence)
      && (forall file :: Names(entries[i], file) ==> Shows(files, file, open, nodes[i].children))
      && ((forall file :: !Names(entries[i], file)) ==> nodes[i].children == [])
  }

  lemma ShowsAppend(files: FileTree, source: Path, a: seq<Task>, b: seq<Task>, open: set<Path>, m: seq<Node>, n: seq<Node>)
    requires ShowsEntries(files, source, a, open, m) && ShowsEntries(files, source, b, open, n)
    ensures ShowsEntries(files, source, a + b, open, m + n)
  {
  }

  lemma EntriesStep(tasks: seq<Task>)
    requires tasks != []
    ensures Entries(tasks) == Entries(Init(tasks)) + if Last(tasks) == NotATask then [] else [Last(tasks)]
  {
  }

  lemma {:induction false} FileShows(files: FileTree, path: Path, open: set<Path>)
    requires path in files
    ensures Shows(files, path, open, ExpandFile(files, path, open).nodes)
    decreases Unopened(files, open), 0, 0
  {
    if path !in open && files[path].TaskList? {
      FewerUnopened(files, open, open + {path});
      TasksShow(files, path, files[path].tasks, open + {path});
    }
  }

  lemma {:induction false} TasksShow(files: FileTree, source: Path, tasks: seq<Task>, open: set<Path>)
    ensures ShowsEntries(files, source, Entries(tasks), open, ExpandTasks(files, source, tasks, open).nodes)
    decreases Unopened(files, open), 2, |tasks|
  {
    if tasks != [] {
      var front, last := ExpandTasks(files, source, Init(tasks), open), ExpandTask(files, source, Last(tasks), open);
      TasksShow(files, source, Init(tasks), open);
      EntriesStep(tasks);
      if Last(tasks) == NotATask {
        assert front.nodes + last.nodes == front.nodes;
        assert Entries(tasks) == Entries(Init(tasks));
      } else {
        TaskShows(files, source, Last(tasks), open);
        ShowsAppend(files, source, Entries(Init(tasks)), [Last(tasks)], open, front.nodes, last.nodes);
      }
    }
  }

  lemma {:induction false} TaskShows(files: FileTree, source: Path, task: Task, open: set<Path>)
    requires task != NotATask
    ensures ShowsEntries(files, source, [task], open, ExpandTask(files, source, task, open).nodes)
    decreases Unopened(files, open), 1, 0
  {
    var target := Target(task);
    assert forall file :: Names(task, file) <==> target == Some(file);
    if target.Some? && target.value in files {
      FileShows(files, target.value, open);
    }
  }

  /** The preview of a file shows exactly what it must. */
  lemma PreviewShows(files: FileTree, path: Path)
    requires path in files
    ensures Shows(files, path, {}, ParseFile(files, path, {}).nodes)
  {
    ExpansionIsPure(files, path);
    FileShows(files, path, {});
  }

  /** So does the preview of a task of a play. */
  lemma TaskPreviewShows(files: FileTree, book: Path, task: Task)
    ensures if task == NotATask then ParseTask(files, book, task, {}).nodes == []
            else ShowsEntries(files, book, [task], {}, ParseTask(files, book, task, {}).nodes)
  {
    TaskExpansionIsPure(files, book, task);
    if task != NotATask {
      TaskShows(files, book, task, {});
    }
  }

  /** And no other tree does. */
  lemma {:induction false} ShowsOneTree(files: FileTree, path: Path, open: set<Path>, m: seq<Node>, n: seq<Node>)
    requires Shows(files, path, open, m) && Shows(files, path, open, n)
    ensures m == n
    decreases m
  {
    if path in files && path !in open && files[path].TaskList? {
      var entries := Entries(files[path].tasks);
      forall i | 0 <= i < |m| ensures m[i] == n[i] {
        if file :| Names(entries[i], file) {
          ShowsOneTree(files, file, open + {path}, m[i].children, n[i].children);
        }
      }
    }
  }

  // ----- What the preview must report -----

  /** Previewing the file below these open ones meets this reason. */
  ghost predicate Meets(files: FileTree, path: Path, open: set<Path>, r: Reason)
    requires path in files
    decreases Unopened(files, open), 0
  {
    if path in open then r == IncludeLoop(path)
    else if files[path].NotAList? then r == NonList(path)
    else
      FewerUnopened(files, open, open + {path});
      exists task :: task in files[path].tasks && TaskMeets(files, path, task, open + {path}, r)
  }

  /** The task names a file that is missing, or whose preview meets the reason. */
  ghost predicate TaskMeets(files: FileTree, source: Path, task: Task, open: set<Path>, r: Reason)
    decreases Unopened(files, open), 1
  {
    exists file :: Names(task, file) &&
      if file in files then Meets(files, file, open, r)
      else if task.ImportTasks? then r == ImportMissing(file, source)
      else if task.IncludeTasks? then r == IncludeMissing(file, source)
      else r == RoleMissing(task.role)
  }

  lemma {:induction false} FileMeets(files: FileTree, path: Path, open: set<Path>, r: Reason)
    requires path in files
    ensures r in ExpandFile(files, path, open).reasons <==> Meets(files, path, open, r)
    decreases Unopened(files, open), 0, 0
  {
    if path !in open && files[path].TaskList? {
      FewerUnopened(files, open, open + {path});
      TasksMeet(files, path, files[path].tasks, open + {path}, r);
    }
  }

  lemma {:induction false} TasksMeet(files: FileTree, source: Path, tasks: seq<Task>, open: set<Path>, r: Reason)
    ensures r in ExpandTasks(files, source, tasks, open).reasons
       <==> exists task :: task in tasks && TaskMeets(files, source, task, open, r)
    decreases Unopened(files, open), 2, |tasks|
  {
    if tasks != [] {
      TasksMeet(files, source, Init(tasks), open, r);
      TaskMeetsAll(files, source, Last(tasks), open, r);
      assert forall t :: t in tasks <==> t in Init(tasks) || t == Last(tasks);
    }
  }

  lemma {:induction false} TaskMeetsAll(files: FileTree, source: Path, task: Task, open: set<Path>, r: Reason)
    ensures r in ExpandTask(files, source, task, open).reasons <==> TaskMeets(files, source, task, open, r)
    decreases Unopened(files, open), 1, 0
  {
    var target := Target(task);
    assert forall file :: Names(task, file) <==> target == Some(file);
    if target.Some? && target.value in files {
      FileMeets(files, target.value, open, r);
    }
  }

  lemma {:induction false} RelabelKeeps(reasons: seq<Reason>, r: Reason)
    ensures !r.IncludeLoop? ==> (r in Relabel(reasons, {}) <==> r in reasons)
    ensures r.IncludeLoop? && r in reasons ==> r in Relabel(reasons, {})
  {
    if reasons != [] {
      RelabelKeeps(Init(reasons), r);
      assert r in reasons <==> r in Init(reasons) || r == Last(reasons);
    }
  }

  /** The preview reports every reason it meets, and no other but a loop at a file that is no task list and was met
      twice. */
  lemma PreviewReports(files: FileTree, path: Path, r: Reason)
    requires path in files
    ensures Meets(files, path, {}, r) ==> r in ParseFile(files, path, {}).reasons
    ensures !r.IncludeLoop? || NonListsOnce(ExpandFile(files, path, {}).reasons) ==>
      (r in ParseFile(files, path, {}).reasons <==> Meets(files, path, {}, r))
  {
    FileMatches(files, path, {}, {});
    ExpansionIsPure(files, path);
    FileMeets(files, path, {}, r);
    var none: set<Path> := {};
    assert none + none == none;
    RelabelKeeps(ExpandFile(files, path, {}).reasons, r);
  }

  // ----- No path opens a file twice -----

  /** Below this node every child comes from a file that is neither this node's nor an ancestor's. */
  ghost predicate NoRepeat(n: Node, open: set<Path>) {
    n.source !in open && forall c :: c in n.children ==> NoRepeat(c, open + {n.source})
  }

  lemma {:induction false} FileNoRepeat(files: FileTree, path: Path, open: set<Path>)
    requires path in files
    ensures forall n :: n in ExpandFile(files, path, open).nodes ==> NoRepeat(n, open) && n.source == path
    decreases Unopened(files, open), 0, 0
  {
    if path !in open && files[path].TaskList? {
      FewerUnopened(files, open, open + {path});
      TasksNoRepeat(files, path, files[path].tasks, open);
    }
  }

  lemma {:induction false} TasksNoRepeat(files: FileTree, source: Path, tasks: seq<Task>, open: set<Path>)
    requires source !in open
    ensures forall n :: n in ExpandTasks(files, source, tasks, open + {source}).nodes ==>
      NoRepeat(n, open) && n.source == source
    decreases Unopened(files, open + {source}), 2, |tasks|
  {
    if tasks != [] {
      TasksNoRepeat(files, source, Init(tasks), open);
      var target := Target(Last(tasks));
      if target.Some? && target.value in files {
        FileNoRepeat(files, target.value, open + {source});
      }
    }
  }

  ghost predicate SourcesIn(n: Node, files: FileTree) {
    n.source in files && forall c :: c in n.children ==> SourcesIn(c, files)
  }

  /** Each node is a child of the one before it. */
  ghost predicate Descends(path: seq<Node>) {
    forall i :: 0 <= i < |path| - 1 ==> path[i + 1] in path[i].children
  }

  function SourceOf(n: Node): Path { n.source }

  lemma DistinctCons(first: Path, rest: seq<Path>)
    requires Distinct(rest) && first !in rest
    ensures Distinct([first] + rest)
  {
    var all := [first] + rest;
    forall i, j | 0 <= i < j < |all| ensures all[i] != all[j] {
      assert all[j] == rest[j - 1] && (i > 0 ==> all[i] == rest[i - 1]);
    }
  }

  lemma DescendsFurther(path: seq<Node>)
    requires |path| > 1 && Descends(path)
    ensures path[1] in path[0].children && Descends(path[1..])
    ensures Map(path, SourceOf) == [path[0].source] + Map(path[1..], SourceOf)
  {
    assert path[0 + 1] in path[0].children;
    forall i | 0 <= i < |path[1..]| - 1 ensures path[1..][i + 1] in path[1..][i].children {
      assert path[i + 1 + 1] in path[i + 1].children;
    }
  }

  lemma {:induction false} DescentOpens(files: FileTree, path: seq<Node>, open: set<Path>)
    requires path != [] && Descends(path) && NoRepeat(path[0], open) && SourcesIn(path[0], files)
    ensures var sources := Map(path, SourceOf);
      Distinct(sources) && forall p :: p in sources ==> p in files && p !in open
    decreases |path|
  {
    if |path| > 1 {
      DescendsFurther(path);
      DescentOpens(files, path[1..], open + {path[0].source});
      DistinctCons(path[0].source, Map(path[1..], SourceOf));
    } else {
      assert Map(path, SourceOf) == [path[0].source];
    }
  }

  lemma {:induction false} FileSources(files: FileTree, path: Path, open: set<Path>)
    requires path in files
    ensures forall n :: n in ExpandFile(files, path, open).nodes ==> SourcesIn(n, files)
    decreases Unopened(files, open), 0, 0
  {
    if path !in open && files[path].TaskList? {
      FewerUnopened(files, open, open + {path});
      TasksSources(files, path, files[path].tasks, open + {path});
    }
  }

  lemma {:induction false} TasksSources(files: FileTree, source: Path, tasks: seq<Task>, open: set<Path>)
    requires source in files
    ensures forall n :: n in ExpandTasks(files, source, tasks, open).nodes ==> SourcesIn(n, files)
    decreases Unopened(files, open), 2, |tasks|
  {
    if tasks != [] {
      TasksSources(files, source, Init(tasks), open);
      var target := Target(Last(tasks));
      if target.Some? && target.value in files {
        FileSources(files, target.value, open);
      }
    }
  }

  /** In the preview of any file tree no descent opens a file twice, so none is longer than there are files. */
  lemma PreviewBounded(files: FileTree, path: Path, descent: seq<Node>)
    requires path in files && descent != [] && descent[0] in ParseFile(files, path, {}).nodes && Descends(descent)
    ensures Distinct(Map(descent, SourceOf)) && |descent| <= |files|
  {
    ExpansionIsPure(files, path);
    FileNoRepeat(files, path, {});
    FileSources(files, path, {});
    DescentOpens(files, descent, {});
    DistinctCount(Map(descent, SourceOf));
    SubsetSize(Elements(Map(descent, SourceOf)), files.Keys);
  }
}
