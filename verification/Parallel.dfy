/** The parallel loop over the files. Every file is read, renamed and written back by a
    task of its own, and the steps of the tasks interleave in any order. Writing takes two
    steps: the file is emptied first, and filled after that. */
module Parallel {
  import opened Disks
  import opened Rules

  /** `Stopped` is a task that has failed: the file could not be read, or the write broke off. */
  datatype Task =
    | Waiting
    | Read(text: string)
    | Edited(content: string)
    | Emptied(content: string)
    | Finished
    | Stopped
  {
    predicate Live() {
      !Finished? && !Stopped?
    }
  }

  datatype State = State(disk: Tree, tasks: seq<Task>)

  function Start(disk: Tree, files: seq<Path>): State {
    State(disk, seq(|files|, i => Waiting))
  }

  /** Task `i` can take a step: reading and writing need a file to be there. */
  predicate Enabled(s: State, files: seq<Path>, i: nat) {
    && i < |files| == |s.tasks|
    && s.tasks[i].Live()
    && files[i] in s.disk && s.disk[files[i]].Plain?
  }

  /** One step of the task of the file at `path`. */
  function TaskStep(disk: Tree, path: Path, task: Task, rules: seq<Rule>): (Tree, Task)
    requires path in disk && disk[path].Plain? && task.Live() && Named(rules)
  {
    match task
    case Waiting => (disk, Read(disk[path].content))
    case Read(text) => (disk, Edited(Rename(text, rules)))
    case Edited(content) => (disk[path := Plain("")], Emptied(content))
    case Emptied(content) => (disk[path := Plain(content)], Finished)
  }

  function Step(s: State, files: seq<Path>, rules: seq<Rule>, i: nat): State
    requires Enabled(s, files, i) && Named(rules)
  {
    var (disk, task) := TaskStep(s.disk, files[i], s.tasks[i], rules);
    State(disk, s.tasks[i := task])
  }

  predicate Distinct(files: seq<Path>) {
    forall i, j :: 0 <= i < j < |files| ==> files[i] != files[j]
  }

  function RenamedEntry(e: Entry, rules: seq<Rule>): Entry
    requires Named(rules)
  {
    match e
    case Folder => Folder
    case Plain(content) => Plain(Rename(content, rules))
  }

  /** The sequential result: each listed file renamed, every other path as it was. */
  function RenamedFiles(t: Tree, files: seq<Path>, rules: seq<Rule>): Tree
    requires Named(rules)
  {
    map p | p in t :: if p in files then RenamedEntry(t[p], rules) else t[p]
  }

  /** What a path may hold when the loop is stopped at any moment: what it held before, or,
      if it is a listed file, the first part of its renamed text, up to all of it. */
  ghost predicate Midway(now: Look, was: Look, listed: bool, rules: seq<Rule>)
    requires Named(rules)
  {
    now == was || (listed && was.Present? && was.entry.Plain? && CutOf(now, RenamedEntry(was.entry, rules)))
  }

  /** Where task `i` stands and what its file holds; `was` is the file at the start. */
  ghost predicate OnTrack(task: Task, now: Look, was: Look, rules: seq<Rule>)
    requires Named(rules)
  {
    match task
    case Waiting => now == was
    case Read(text) => now == was == Present(Plain(text))
    case Edited(content) =>
      now == was && was.Present? && was.entry.Plain? && content == Rename(was.entry.content, rules)
    case Emptied(content) =>
      && was.Present? && was.entry.Plain? && now == Present(Plain(""))
      && content == Rename(was.entry.content, rules)
    case Finished => was.Present? && was.entry.Plain? && now == Present(RenamedEntry(was.entry, rules))
    case Stopped => Midway(now, was, true, rules)
  }

  /** What every reachable state keeps. */
  ghost predicate Inv(s: State, disk0: Tree, files: seq<Path>, rules: seq<Rule>)
    requires Named(rules)
  {
    && |s.tasks| == |files|
    && (forall i :: 0 <= i < |files| ==> OnTrack(s.tasks[i], At(s.disk, files[i]), At(disk0, files[i]), rules))
    && (forall p: Path :: p !in files ==> At(s.disk, p) == At(disk0, p))
  }

  lemma InvStart(disk0: Tree, files: seq<Path>, rules: seq<Rule>)
    requires Named(rules)
    ensures Inv(Start(disk0, files), disk0, files, rules)
  {
  }

  lemma InvStep(s: State, disk0: Tree, files: seq<Path>, rules: seq<Rule>, i: nat)
    requires Named(rules) && Distinct(files) && Inv(s, disk0, files, rules) && Enabled(s, files, i)
    ensures Inv(Step(s, files, rules, i), disk0, files, rules)
  {
    var t := Step(s, files, rules, i);
    assert OnTrack(s.tasks[i], At(s.disk, files[i]), At(disk0, files[i]), rules);
    forall j | 0 <= j < |files| ensures OnTrack(t.tasks[j], At(t.disk, files[j]), At(disk0, files[j]), rules) {
      assert OnTrack(s.tasks[j], At(s.disk, files[j]), At(disk0, files[j]), rules);
      if j != i { assert files[j] != files[i]; }
    }
  }

  predicate NoneStopped(s: State) {
    forall i :: 0 <= i < |s.tasks| ==> !s.tasks[i].Stopped?
  }

  predicate AllFinished(s: State) {
    forall i :: 0 <= i < |s.tasks| ==> s.tasks[i].Finished?
  }

  lemma FinishedIsSequential(s: State, disk0: Tree, files: seq<Path>, rules: seq<Rule>)
    requires Named(rules) && Inv(s, disk0, files, rules) && AllFinished(s)
    ensures s.disk == RenamedFiles(disk0, files, rules)
  {
    forall p: Path ensures At(s.disk, p) == At(RenamedFiles(disk0, files, rules), p) {
      if p in files {
        var i :| 0 <= i < |files| && files[i] == p;
        assert OnTrack(s.tasks[i], At(s.disk, files[i]), At(disk0, files[i]), rules);
      }
    }
    SameLooks(s.disk, RenamedFiles(disk0, files, rules));
  }

  lemma SameLooks(a: Tree, b: Tree)
    requires forall p: Path :: At(a, p) == At(b, p)
    ensures a == b
  {
    forall p: Path ensures p in a <==> p in b {
      assert At(a, p) == At(b, p);
    }
    forall p | p in a ensures a[p] == b[p] {
      assert At(a, p) == At(b, p);
    }
  }

  // ---------------------------------------------------------------------------
  // All schedules
  // ---------------------------------------------------------------------------

  /** A schedule names the task that takes each step; it is feasible when every one of
      those steps can be taken. */
  predicate Feasible(s: State, files: seq<Path>, rules: seq<Rule>, schedule: seq<nat>)
    requires Named(rules)
    decreases |schedule|
  {
    || schedule == []
    || (Enabled(s, files, schedule[0]) && Feasible(Step(s, files, rules, schedule[0]), files, rules, schedule[1..]))
  }

  function Run(s: State, files: seq<Path>, rules: seq<Rule>, schedule: seq<nat>): State
    requires Named(rules) && Feasible(s, files, rules, schedule)
    decreases |schedule|
  {
    if schedule == [] then s else Run(Step(s, files, rules, schedule[0]), files, rules, schedule[1..])
  }

  lemma {:induction false} InvRun(s: State, disk0: Tree, files: seq<Path>, rules: seq<Rule>, schedule: seq<nat>)
    requires Named(rules) && Distinct(files) && Inv(s, disk0, files, rules) && Feasible(s, files, rules, schedule)
    ensures Inv(Run(s, files, rules, schedule), disk0, files, rules)
    ensures NoneStopped(s) ==> NoneStopped(Run(s, files, rules, schedule))
    decreases |schedule|
  {
    if schedule != [] {
      InvStep(s, disk0, files, rules, schedule[0]);
      InvRun(Step(s, files, rules, schedule[0]), disk0, files, rules, schedule[1..]);
    }
  }

  /** Steps the tasks still have to take. */
  function StepsLeft(task: Task): nat {
    match task
    case Waiting => 4
    case Read(_) => 3
    case Edited(_) => 2
    case Emptied(_) => 1
    case Finished => 0
    case Stopped => 0
  }

  function Work(tasks: seq<Task>): nat {
    if tasks == [] then 0 else StepsLeft(tasks[0]) + Work(tasks[1..])
  }

  lemma {:induction false} WorkUpdate(tasks: seq<Task>, i: nat, task: Task)
    requires i < |tasks|
    ensures Work(tasks[i := task]) + StepsLeft(tasks[i]) == Work(tasks) + StepsLeft(task)
  {
    if i == 0 {
      assert tasks[0 := task][1..] == tasks[1..];
    } else {
      WorkUpdate(tasks[1..], i - 1, task);
      assert tasks[i := task][1..] == tasks[1..][i - 1 := task];
    }
  }

  lemma {:induction false} NoWorkNoneLive(tasks: seq<Task>)
    ensures Work(tasks) == 0 <==> forall i :: 0 <= i < |tasks| ==> !tasks[i].Live()
  {
    if tasks != [] {
      NoWorkNoneLive(tasks[1..]);
      assert forall i :: 0 < i < |tasks| ==> tasks[i] == tasks[1..][i - 1];
    }
  }

  lemma {:induction false} InitialWork(n: nat)
    ensures Work(seq(n, i => Waiting)) == 4 * n
  {
    if n > 0 {
      InitialWork(n - 1);
      assert seq(n, i => Waiting)[1..] == seq(n - 1, i => Waiting);
    }
  }

  lemma {:induction false} RunLength(s: State, files: seq<Path>, rules: seq<Rule>, schedule: seq<nat>)
    requires Named(rules) && Feasible(s, files, rules, schedule)
    ensures Work(Run(s, files, rules, schedule).tasks) + |schedule| == Work(s.tasks)
    decreases |schedule|
  {
    if schedule != [] {
      var i := schedule[0];
      var t := Step(s, files, rules, i);
      WorkUpdate(s.tasks, i, t.tasks[i]);
      assert t.tasks == s.tasks[i := t.tasks[i]];
      RunLength(t, files, rules, schedule[1..]);
    }
  }

  /** Every file is there to be read. */
  predicate AllPlain(disk: Tree, files: seq<Path>) {
    forall i :: 0 <= i < |files| ==> files[i] in disk && disk[files[i]].Plain?
  }

  /** As long as the tasks are not all finished, every unfinished one can go on. */
  lemma NeverStuck(s: State, disk0: Tree, files: seq<Path>, rules: seq<Rule>, i: nat)
    requires Named(rules) && Inv(s, disk0, files, rules) && AllPlain(disk0, files)
    requires i < |s.tasks| && s.tasks[i].Live()
    ensures Enabled(s, files, i)
  {
    assert OnTrack(s.tasks[i], At(s.disk, files[i]), At(disk0, files[i]), rules);
  }

  ghost predicate AllMidway(now: Tree, disk0: Tree, files: seq<Path>, rules: seq<Rule>)
    requires Named(rules)
  {
    forall p: Path :: Midway(At(now, p), At(disk0, p), p in files, rules)
  }

  /** No task is between emptying its file and filling it, or has failed. */
  predicate BetweenWrites(s: State) {
    forall i :: 0 <= i < |s.tasks| ==> !s.tasks[i].Emptied? && !s.tasks[i].Stopped?
  }

  lemma AlwaysMidway(s: State, disk0: Tree, files: seq<Path>, rules: seq<Rule>)
    requires Named(rules) && Inv(s, disk0, files, rules)
    ensures AllMidway(s.disk, disk0, files, rules)
    ensures BetweenWrites(s) ==> forall p: Path ::
      At(s.disk, p) == At(disk0, p) || At(s.disk, p) == At(RenamedFiles(disk0, files, rules), p)
  {
    forall p: Path
      ensures Midway(At(s.disk, p), At(disk0, p), p in files, rules)
      ensures BetweenWrites(s) ==>
        At(s.disk, p) == At(disk0, p) || At(s.disk, p) == At(RenamedFiles(disk0, files, rules), p)
    {
      if p in files {
        var i :| 0 <= i < |files| && files[i] == p;
        assert OnTrack(s.tasks[i], At(s.disk, files[i]), At(disk0, files[i]), rules);
      }
    }
  }

  // ---------------------------------------------------------------------------
  // Which schedules there are
  // ---------------------------------------------------------------------------

  /** The schedule names each task at most as often as it has steps left, and no others. */
  ghost predicate WithinSteps(tasks: seq<Task>, schedule: seq<nat>) {
    forall i: nat :: multiset(schedule)[i] <= if i < |tasks| then StepsLeft(tasks[i]) else 0
  }

  lemma NamedOnceMore(k: nat, rest: seq<nat>, i: nat)
    ensures multiset([k] + rest)[i] == (if k == i then 1 else 0) + multiset(rest)[i]
  {
    assert multiset([k] + rest) == multiset{k} + multiset(rest);
  }

  lemma WithinStepsMore(tasks: seq<Task>, k: nat, task: Task, rest: seq<nat>)
    requires k < |tasks| && tasks[k].Live() && StepsLeft(task) + 1 == StepsLeft(tasks[k])
    ensures WithinSteps(tasks, [k] + rest) <==> WithinSteps(tasks[k := task], rest)
  {
    forall i: nat
      ensures multiset([k] + rest)[i] <= (if i < |tasks| then StepsLeft(tasks[i]) else 0)
         <==> multiset(rest)[i] <= (if i < |tasks| then StepsLeft(tasks[k := task][i]) else 0)
    {
      NamedOnceMore(k, rest, i);
    }
  }

  lemma NamedIsLive(tasks: seq<Task>, k: nat, rest: seq<nat>)
    requires WithinSteps(tasks, [k] + rest)
    ensures k < |tasks| && tasks[k].Live()
  {
    NamedOnceMore(k, rest, k);
    assert multiset([k] + rest)[k] <= if k < |tasks| then StepsLeft(tasks[k]) else 0;
  }

  /** The next step can be taken, and what it leaves. */
  lemma NextStep(s: State, disk0: Tree, files: seq<Path>, rules: seq<Rule>, k: nat, rest: seq<nat>)
    requires Named(rules) && Distinct(files) && AllPlain(disk0, files) && Inv(s, disk0, files, rules)
    requires k < |s.tasks| && s.tasks[k].Live()
    ensures Enabled(s, files, k) && Inv(Step(s, files, rules, k), disk0, files, rules)
    ensures WithinSteps(s.tasks, [k] + rest) <==> WithinSteps(Step(s, files, rules, k).tasks, rest)
  {
    NeverStuck(s, disk0, files, rules, k);
    InvStep(s, disk0, files, rules, k);
    var t := Step(s, files, rules, k);
    WithinStepsMore(s.tasks, k, t.tasks[k], rest);
    assert t.tasks == s.tasks[k := t.tasks[k]];
  }

  lemma {:induction false} FeasibleWhen(
    s: State, disk0: Tree, files: seq<Path>, rules: seq<Rule>, schedule: seq<nat>
  )
    requires Named(rules) && Distinct(files) && AllPlain(disk0, files) && Inv(s, disk0, files, rules)
    ensures Feasible(s, files, rules, schedule) <==> WithinSteps(s.tasks, schedule)
    decreases |schedule|
  {
    if schedule != [] {
      var k, rest := schedule[0], schedule[1..];
      assert schedule == [k] + rest;
      if WithinSteps(s.tasks, schedule) { NamedIsLive(s.tasks, k, rest); }
      if k < |s.tasks| && s.tasks[k].Live() {
        NextStep(s, disk0, files, rules, k, rest);
        FeasibleWhen(Step(s, files, rules, k), disk0, files, rules, rest);
      }
    }
  }

  /** Exactly which schedules the theorem below is about: all that name each file up to four
      times, in any order. */
  lemma FeasibleIff(disk0: Tree, files: seq<Path>, rules: seq<Rule>, schedule: seq<nat>)
    requires Named(rules)
    requires forall i, j :: 0 <= i < j < |files| ==> files[i] != files[j]
    requires forall i :: 0 <= i < |files| ==> files[i] in disk0 && disk0[files[i]].Plain?
    ensures Feasible(Start(disk0, files), files, rules, schedule)
       <==> forall i: nat :: multiset(schedule)[i] <= if i < |files| then 4 else 0
  {
    InvStart(disk0, files, rules);
    FeasibleWhen(Start(disk0, files), disk0, files, rules, schedule);
    var tasks := Start(disk0, files).tasks;
    assert forall i: nat :: i < |files| ==> StepsLeft(tasks[i]) == 4;
  }

  /** What a moment of the loop leaves of each path, written out. */
  lemma AllMidwayMeans(now: Tree, disk0: Tree, files: seq<Path>, rules: seq<Rule>, p: Path)
    requires Named(rules) && AllMidway(now, disk0, files, rules)
    ensures p in now <==> p in disk0
    ensures p in disk0 && p !in files ==> now[p] == disk0[p]
    ensures p in disk0 && disk0[p] == Folder ==> now[p] == Folder
    ensures p in disk0 && disk0[p].Plain? ==>
      now[p] == disk0[p] || (now[p].Plain? && now[p].content <= Rename(disk0[p].content, rules))
  {
    assert Midway(At(now, p), At(disk0, p), p in files, rules);
  }

  lemma RenamedFilesAre(disk0: Tree, files: seq<Path>, rules: seq<Rule>, p: Path)
    requires Named(rules)
    ensures p in RenamedFiles(disk0, files, rules) <==> p in disk0
    ensures p in disk0 && p !in files ==> RenamedFiles(disk0, files, rules)[p] == disk0[p]
    ensures p in disk0 && p in files && disk0[p].Plain? ==>
      RenamedFiles(disk0, files, rules)[p] == Plain(Rename(disk0[p].content, rules))
  {
  }

  /** Every interleaving of the tasks, whatever the order in which they are named, up to four
      times each: at every moment each path holds what it held or, if
      it is listed, the first part of its renamed text, and between writes all of it; every
      unfinished task can go on; and after exactly four steps for each file the disk is the
      sequential result. */
  lemma EveryInterleaving(disk0: Tree, files: seq<Path>, rules: seq<Rule>, schedule: seq<nat>)
    requires Named(rules)
    requires forall i, j :: 0 <= i < j < |files| ==> files[i] != files[j]
    requires forall i :: 0 <= i < |files| ==> files[i] in disk0 && disk0[files[i]].Plain?
    requires forall i: nat :: multiset(schedule)[i] <= if i < |files| then 4 else 0
    ensures Feasible(Start(disk0, files), files, rules, schedule)
    ensures var s := Run(Start(disk0, files), files, rules, schedule);
      && AllMidway(s.disk, disk0, files, rules)
      && ((forall i :: 0 <= i < |s.tasks| ==> !s.tasks[i].Emptied?) ==> forall p: Path ::
            At(s.disk, p) == At(disk0, p) || At(s.disk, p) == At(RenamedFiles(disk0, files, rules), p))
      && (forall i :: 0 <= i < |s.tasks| && s.tasks[i].Live() ==> Enabled(s, files, i))
      && |schedule| <= 4 * |files|
      && (|schedule| == 4 * |files| <==> AllFinished(s))
      && (AllFinished(s) ==> s.disk == RenamedFiles(disk0, files, rules))
  {
    FeasibleIff(disk0, files, rules, schedule);
    var s0 := Start(disk0, files);
    var s := Run(s0, files, rules, schedule);
    InvStart(disk0, files, rules);
    assert NoneStopped(s0);
    InvRun(s0, disk0, files, rules, schedule);
    AlwaysMidway(s, disk0, files, rules);
    forall i | 0 <= i < |s.tasks| && s.tasks[i].Live() ensures Enabled(s, files, i) {
      NeverStuck(s, disk0, files, rules, i);
    }
    assert s0.tasks == seq(|files|, i => Waiting);
    InitialWork(|files|);
    RunLength(s0, files, rules, schedule);
    NoWorkNoneLive(s.tasks);
    if AllFinished(s) { FinishedIsSequential(s, disk0, files, rules); }
  }

  // ---------------------------------------------------------------------------
  // The function itself
  // ---------------------------------------------------------------------------

  /** A task that fails leaves its file as it was or, while filling it, cut. */
  lemma InvStop(s: State, after: Tree, disk0: Tree, files: seq<Path>, rules: seq<Rule>, i: nat)
    requires Named(rules) && Distinct(files) && Inv(s, disk0, files, rules) && i < |files|
    requires after == s.disk || exists written ::
      s.tasks[i].Emptied? && written <= s.tasks[i].content && after == s.disk[files[i] := Plain(written)]
    ensures Inv(State(after, s.tasks[i := Stopped]), disk0, files, rules)
  {
    var tasks := s.tasks[i := Stopped];
    forall j | 0 <= j < |files| ensures OnTrack(tasks[j], At(after, files[j]), At(disk0, files[j]), rules) {
      assert OnTrack(s.tasks[j], At(s.disk, files[j]), At(disk0, files[j]), rules);
      if j != i { assert files[j] != files[i]; }
    }
  }

  /** What the closure does next for one file. */
  method TakeStep(disk: Disk, fncList: seq<string>, path: Path, task: Task) returns (next: Task)
    requires AllSymbols(RulesOf(fncList))
    requires path in disk.nodes && disk.nodes[path].Plain? && task.Live()
    modifies disk
    ensures (disk.nodes, next) == TaskStep(old(disk.nodes), path, task, RulesOf(fncList))
  {
    match task {
      case Waiting =>
        next := Read(disk.nodes[path].content);
      case Read(text) =>
        var content := RenameContent(text, fncList);
        next := Edited(content);
      case Edited(content) =>
        disk.nodes := disk.nodes[path := Plain("")];
        next := Emptied(content);
      case Emptied(content) =>
        disk.nodes := disk.nodes[path := Plain(content)];
        next := Finished;
    }
  }

  /** A step that fails changes nothing, or cuts the file it was filling. */
  method FailStep(disk: Disk, path: Path, task: Task)
    modifies disk
    ensures disk.nodes == old(disk.nodes) || exists written ::
      task.Emptied? && written <= task.content && disk.nodes == old(disk.nodes)[path := Plain(written)]
  {
    var written: int := *;
    if task.Emptied? && 0 <= written <= |task.content| {
      assert task.content[..written] <= task.content;
      disk.nodes := disk.nodes[path := Plain(task.content[..written])];
    }
  }

  /** A step keeps the invariant and leaves less to do. */
  lemma StepAdvances(s: State, disk0: Tree, files: seq<Path>, rules: seq<Rule>, i: nat)
    requires Named(rules) && Distinct(files) && Inv(s, disk0, files, rules) && Enabled(s, files, i)
    ensures Inv(Step(s, files, rules, i), disk0, files, rules)
    ensures Work(Step(s, files, rules, i).tasks) < Work(s.tasks)
  {
    InvStep(s, disk0, files, rules, i);
    WorkUpdate(s.tasks, i, TaskStep(s.disk, files[i], s.tasks[i], rules).1);
  }

  /** The task goes on if its file is there, unless it fails. */
  method Advance(
    disk: Disk, fncList: seq<string>, files: seq<Path>, tasks: seq<Task>, i: nat, ghost disk0: Tree, faulty: bool
  )
    returns (after: seq<Task>)
    requires AllSymbols(RulesOf(fncList)) && Distinct(files)
    requires Inv(State(disk.nodes, tasks), disk0, files, RulesOf(fncList)) && i < |tasks| && tasks[i].Live()
    modifies disk
    ensures Inv(State(disk.nodes, after), disk0, files, RulesOf(fncList)) && Work(after) < Work(tasks)
    ensures !faulty && AllPlain(disk0, files) && NoneStopped(State(old(disk.nodes), tasks)) ==>
      NoneStopped(State(disk.nodes, after))
  {
    ghost var s, rules := State(disk.nodes, tasks), RulesOf(fncList);
    if AllPlain(disk0, files) { NeverStuck(s, disk0, files, rules, i); }
    var fault: bool := *;
    if files[i] in disk.nodes && disk.nodes[files[i]].Plain? && !(faulty && fault) {
      StepAdvances(s, disk0, files, rules, i);
      var next := TakeStep(disk, fncList, files[i], tasks[i]);
      after := tasks[i := next];
      assert State(disk.nodes, after) == Step(s, files, rules, i);
    } else {
      FailStep(disk, files[i], tasks[i]);
      InvStop(s, disk.nodes, disk0, files, rules, i);
      WorkUpdate(tasks, i, Stopped);
      after := tasks[i := Stopped];
    }
  }

  /** Renames the files of both lists in parallel: as long as a task can go on, any such
      task takes a step. A file that cannot be read or written stops its task; a write that
      fails may leave the first part of the text. The others may go on, some of them or all,
      until the loop fails. */
  method RenameSymbols(disk: Disk, fncList: seq<string>, includeFiles: seq<Path>, sourceFiles: seq<Path>, faulty: bool)
    returns (ok: bool)
    requires AllSymbols(RulesOf(fncList)) && Distinct(includeFiles + sourceFiles)
    modifies disk
    ensures !faulty && AllPlain(old(disk.nodes), includeFiles + sourceFiles) ==> ok
    ensures ok ==> disk.nodes == RenamedFiles(old(disk.nodes), includeFiles + sourceFiles, RulesOf(fncList))
    ensures AllMidway(disk.nodes, old(disk.nodes), includeFiles + sourceFiles, RulesOf(fncList))
  {
    var files := includeFiles + sourceFiles;
    ghost var disk0, rules := disk.nodes, RulesOf(fncList);
    var tasks := Start(disk.nodes, files).tasks;
    InvStart(disk0, files, rules);
    while exists i :: 0 <= i < |tasks| && tasks[i].Live()
      invariant Inv(State(disk.nodes, tasks), disk0, files, rules)
      invariant !faulty && AllPlain(disk0, files) ==> NoneStopped(State(disk.nodes, tasks))
      decreases Work(tasks)
    {
      var giveUp: bool := *;
      if giveUp && exists i :: 0 <= i < |tasks| && tasks[i].Stopped? {
        AlwaysMidway(State(disk.nodes, tasks), disk0, files, rules);
        return false;
      }
      var i :| 0 <= i < |tasks| && tasks[i].Live();
      tasks := Advance(disk, fncList, files, tasks, i, disk0, faulty);
    }
    ok := forall i :: 0 <= i < |tasks| ==> tasks[i].Finished?;
    AlwaysMidway(State(disk.nodes, tasks), disk0, files, rules);
    if ok { FinishedIsSequential(State(disk.nodes, tasks), disk0, files, rules); }
  }
}
