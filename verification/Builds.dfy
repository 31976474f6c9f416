/** Any number of builds, one after the other. Between two builds the disk may change, but
    the work tree is only ever removed as a whole. */
module Builds {
  import opened Disks
  import opened Parallel
  import opened Rules
  import opened BuildScript
  import opened Words
  import opened Wrappers
  import opened Scanner
  import opened Rewriting
  import opened RenameLaws
  import opened WordLaws
  import opened UnitLaws
  import opened LinkLaws
  import opened PastedLines
  import opened TwoLists
  import opened WayBack
  import opened Bindings

  datatype Record = Record(before: Tree, after: Tree, fncList: seq<string>, outcome: Outcome)

  ghost predicate IsBuild(b: Record, source: Path, work: Path) {
    BuildStep(b.before, b.after, source, work, b.fncList, b.outcome)
  }

  /** The work tree that `next` finds, if any, is the one that `b` left. */
  predicate Continues(b: Record, next: Record, work: Path) {
    work in next.before ==> SubTree(next.before, work) == SubTree(b.after, work)
  }

  ghost predicate IsRun(builds: seq<Record>, source: Path, work: Path) {
    && (forall i :: 0 <= i < |builds| ==> IsBuild(builds[i], source, work))
    && (builds != [] ==> work !in builds[0].before)
    && (forall i, j :: 0 <= i < j < |builds| && j == i + 1 ==> Continues(builds[i], builds[j], work))
  }

  /** Which runs there are: none to begin with, and each run can go on with any build that
      finds no work tree, or the one the last build left. */
  lemma IsRunMore(builds: seq<Record>, b: Record, source: Path, work: Path)
    ensures IsRun([], source, work)
    ensures IsRun(builds + [b], source, work) <==>
      && IsRun(builds, source, work)
      && BuildStep(b.before, b.after, source, work, b.fncList, b.outcome)
      && (work in b.before ==>
            builds != [] && SubTree(b.before, work) == SubTree(builds[|builds| - 1].after, work))
  {
    if IsRun(builds + [b], source, work) { RunBefore(builds, b, source, work); }
    if
      && IsRun(builds, source, work) && IsBuild(b, source, work)
      && (work in b.before ==> builds != [] && Continues(builds[|builds| - 1], b, work))
    {
      RunLonger(builds, b, source, work);
    }
  }

  lemma RunBefore(builds: seq<Record>, b: Record, source: Path, work: Path)
    requires IsRun(builds + [b], source, work)
    ensures IsRun(builds, source, work) && IsBuild(b, source, work)
    ensures work in b.before ==> builds != [] && Continues(builds[|builds| - 1], b, work)
  {
    var longer, n := builds + [b], |builds|;
    assert longer[n] == b && IsBuild(longer[n], source, work);
    forall i | 0 <= i < n ensures IsBuild(builds[i], source, work) {
      assert builds[i] == longer[i] && IsBuild(longer[i], source, work);
    }
    forall i, j | 0 <= i < j < n && j == i + 1 ensures Continues(builds[i], builds[j], work) {
      assert builds[i] == longer[i] && builds[j] == longer[j] && Continues(longer[i], longer[j], work);
    }
    if builds != [] { assert longer[n - 1] == builds[n - 1] && Continues(longer[n - 1], longer[n], work); }
  }

  lemma LongerContinues(builds: seq<Record>, b: Record, source: Path, work: Path, j: nat)
    requires IsRun(builds, source, work) && 0 < j <= |builds|
    requires work in b.before ==> Continues(builds[|builds| - 1], b, work)
    ensures Continues((builds + [b])[j - 1], (builds + [b])[j], work)
  {
    if j < |builds| { assert Continues(builds[j - 1], builds[j], work); }
  }

  lemma RunLonger(builds: seq<Record>, b: Record, source: Path, work: Path)
    requires IsRun(builds, source, work) && IsBuild(b, source, work)
    requires work in b.before ==> builds != [] && Continues(builds[|builds| - 1], b, work)
    ensures IsRun(builds + [b], source, work)
  {
    var longer, n := builds + [b], |builds|;
    forall i | 0 <= i < |longer| ensures IsBuild(longer[i], source, work) {
      if i < n { assert longer[i] == builds[i]; }
    }
    forall i, j | 0 <= i < j < |longer| && j == i + 1 ensures Continues(longer[i], longer[j], work) {
      LongerContinues(builds, b, source, work, j);
    }
  }

  /** The build made the work tree, or as much of it as it came to. */
  predicate Made(b: Record, work: Path) {
    !b.outcome.Skipped? && work in b.after
  }

  /** The work tree after build `i` was made by build `j`; the builds since then skipped. */
  predicate MadeBy(builds: seq<Record>, work: Path, i: nat, j: nat) {
    && j <= i < |builds|
    && Made(builds[j], work)
    && forall k :: j < k <= i ==> builds[k].outcome.Skipped?
  }

  /** What build `b` had to make: the renamed copy of the source tree as it was then. */
  function Goal(b: Record, source: Path): Tree {
    RenamedTree(SubTree(b.before, source), RulesOf(b.fncList))
  }

  lemma RootInSubTree(t: Tree, dir: Path)
    ensures [] in SubTree(t, dir) <==> dir in t
  {
    SubTreeAt(t, dir, []);
    assert dir + [] == dir;
  }

  lemma WorkAfter(b: Record, source: Path, work: Path)
    requires IsBuild(b, source, work)
    ensures b.outcome.Skipped? ==> work in b.before && b.after == b.before
    ensures Made(b, work) <==> b.outcome.Interrupted? || b.outcome.Built? || (b.outcome.Killed? && work in b.after)
    ensures b.outcome.Built? ==> SubTree(b.after, work) == Goal(b, source)
  {
  }

  lemma WorkThere(builds: seq<Record>, source: Path, work: Path, i: nat)
    requires IsRun(builds, source, work) && i < |builds| && builds[i].outcome.Skipped?
    ensures 0 < i && work in builds[i].after && work in builds[i - 1].after
    ensures SubTree(builds[i].after, work) == SubTree(builds[i - 1].after, work)
  {
    var b := builds[i];
    WorkAfter(b, source, work);
    assert 0 < i && Continues(builds[i - 1], b, work);
    RootInSubTree(b.before, work);
    RootInSubTree(builds[i - 1].after, work);
  }

  /** Whether the work tree is there after build `i`, told by the outcomes alone. */
  predicate Tracked(builds: seq<Record>, work: Path, i: nat)
    requires i < |builds|
  {
    builds[i].outcome.Skipped? ==> 0 < i && work in builds[i - 1].after
  }

  lemma RunIsTracked(builds: seq<Record>, source: Path, work: Path)
    requires IsRun(builds, source, work)
    ensures forall i :: 0 <= i < |builds| ==> Tracked(builds, work, i)
  {
    forall i | 0 <= i < |builds| ensures Tracked(builds, work, i) {
      if builds[i].outcome.Skipped? { WorkThere(builds, source, work, i); }
    }
  }

  lemma {:induction false} Maker(builds: seq<Record>, work: Path, i: nat) returns (j: nat)
    requires forall k :: 0 <= k < |builds| ==> Tracked(builds, work, k)
    requires i < |builds| && work in builds[i].after
    ensures MadeBy(builds, work, i, j)
    decreases i
  {
    assert Tracked(builds, work, i);
    if Made(builds[i], work) {
      j := i;
    } else {
      j := Maker(builds, work, i - 1);
    }
  }

  /** After every build the work tree is absent, or it is what the one build that made it
      left; every build since then changed nothing. */
  lemma WorkTreeHasAMaker(builds: seq<Record>, source: Path, work: Path, i: nat)
    requires IsRun(builds, source, work) && i < |builds|
    ensures work in builds[i].after <==> exists j: nat :: MadeBy(builds, work, i, j)
    ensures forall j: nat :: MadeBy(builds, work, i, j) ==>
      SubTree(builds[i].after, work) == SubTree(builds[j].after, work)
  {
    if work in builds[i].after {
      RunIsTracked(builds, source, work);
      var j := Maker(builds, work, i);
    }
    forall j: nat | MadeBy(builds, work, i, j)
      ensures work in builds[i].after && SubTree(builds[i].after, work) == SubTree(builds[j].after, work)
    {
      KeptSince(builds, source, work, i, j);
    }
  }

  lemma {:induction false} KeptSince(builds: seq<Record>, source: Path, work: Path, i: nat, j: nat)
    requires IsRun(builds, source, work) && MadeBy(builds, work, i, j)
    ensures SubTree(builds[i].after, work) == SubTree(builds[j].after, work)
    ensures work in builds[i].after
    decreases i
  {
    if i == j {
      WorkAfter(builds[j], source, work);
    } else {
      WorkThere(builds, source, work, i);
      assert MadeBy(builds, work, i - 1, j);
      KeptSince(builds, source, work, i - 1, j);
    }
  }

  lemma OneMaker(builds: seq<Record>, work: Path, i: nat, j: nat, k: nat)
    requires MadeBy(builds, work, i, j) && MadeBy(builds, work, i, k)
    ensures j == k
  {
  }

  /** The work tree is absent or exactly the renamed copy of the source tree, as both the
      source and the list were when the tree was made. */
  ghost predicate Right(builds: seq<Record>, source: Path, work: Path, i: nat)
    requires i < |builds|
  {
    work in builds[i].after ==>
      exists j: nat :: MadeBy(builds, work, i, j) && SubTree(builds[i].after, work) == Goal(builds[j], source)
  }

  lemma RightByMaker(builds: seq<Record>, source: Path, work: Path, i: nat, j: nat)
    requires IsRun(builds, source, work) && MadeBy(builds, work, i, j)
    ensures Right(builds, source, work, i) <==> SubTree(builds[j].after, work) == Goal(builds[j], source)
  {
    KeptSince(builds, source, work, i, j);
    forall k: nat | MadeBy(builds, work, i, k) ensures k == j { OneMaker(builds, work, i, j, k); }
  }

  /** In a run in which every copy that starts is completed or cleaned up, and every rename
      that starts is completed, the work tree is right after every build, and its files
      have been renamed once, however many builds ran. */
  lemma {:induction false} RepeatedBuilds(builds: seq<Record>, source: Path, work: Path, i: nat)
    requires IsRun(builds, source, work) && i < |builds|
    requires forall k :: 0 <= k < |builds| ==> !builds[k].outcome.Interrupted? && !builds[k].outcome.Killed?
    ensures Right(builds, source, work, i)
    ensures forall j: nat, q :: MadeBy(builds, work, i, j) && IsTarget(q) && q in SubTree(builds[j].before, source) ==>
      At(SubTree(builds[i].after, work), q)
      == Present(RenamedEntry(SubTree(builds[j].before, source)[q], RulesOf(builds[j].fncList)))
  {
    WorkTreeHasAMaker(builds, source, work, i);
    forall j: nat | MadeBy(builds, work, i, j)
      ensures Right(builds, source, work, i) && SubTree(builds[i].after, work) == Goal(builds[j], source)
    {
      RightByMaker(builds, source, work, i, j);
      WorkAfter(builds[j], source, work);
    }
  }

  // ---------------------------------------------------------------------------
  // What a look at the work tree tells
  // ---------------------------------------------------------------------------

  /** No header or source of the tree holds a listed name between word boundaries. */
  ghost predicate Clean(t: Tree, rules: seq<Rule>) {
    forall q, j :: q in t && IsTarget(q) && t[q].Plain? && 0 <= j < |rules| ==> !Found(rules[j].name, t[q].content)
  }

  /** The length of a renamed file, counted from the list and the units of the original. */
  function FullLength(q: Path, content: string, rules: seq<Rule>): int
    requires Named(rules)
  {
    |content| + if IsTarget(q) then Growth(rules, UnitsOf(content, rules)) else 0
  }

  /** The tree has the paths of the clone, and files of the length they must have. */
  ghost predicate Whole(t: Tree, clone: Tree, rules: seq<Rule>)
    requires Named(rules)
  {
    && t.Keys == clone.Keys
    && forall q :: q in clone && clone[q].Plain? ==>
      t[q].Plain? && |t[q].content| == FullLength(q, clone[q].content, rules)
  }

  /** No file was left cut in the middle of a write. */
  ghost predicate Uncut(t: Tree, clone: Tree, rules: seq<Rule>)
    requires Named(rules)
  {
    forall q: Path :: At(t, q) == At(clone, q) || At(t, q) == At(RenamedTree(clone, rules), q)
  }

  /** What a tree holds that was copied, or copied and renamed, up to some point. */
  ghost predicate Partly(t: Tree, clone: Tree, rules: seq<Rule>)
    requires Named(rules)
  {
    PartlyRenamed(t, clone, rules) || PartlyCopied(t, clone)
  }

  lemma GoalIsClean(clone: Tree, rules: seq<Rule>)
    requires AllSymbols(rules) && Named(rules) && Ordered(Rewritings(rules)) && AllSettled(rules)
    ensures Clean(RenamedTree(clone, rules), rules)
  {
    var t := RenamedTree(clone, rules);
    forall q, j | q in t && IsTarget(q) && t[q].Plain? && 0 <= j < |rules| ensures !Found(rules[j].name, t[q].content) {
      NoNameLeft(clone[q].content, rules, j);
    }
  }

  lemma GoalIsWhole(clone: Tree, rules: seq<Rule>)
    requires AllSymbols(rules) && Named(rules) && Ordered(Rewritings(rules))
    ensures Whole(RenamedTree(clone, rules), clone, rules)
  {
    forall q | q in clone && clone[q].Plain? && IsTarget(q)
      ensures |RenamedTree(clone, rules)[q].content| == FullLength(q, clone[q].content, rules)
    {
      RenameGrowth(clone[q].content, rules);
    }
  }

  /** A clean target that holds all of its old text is renamed: there was nothing to do. */
  lemma CleanIsRenamed(t: Tree, rules: seq<Rule>, q: Path)
    requires AllSymbols(rules) && Named(rules) && Clean(t, rules) && q in t && IsTarget(q) && t[q].Plain?
    ensures Rename(t[q].content, rules) == t[q].content
  {
    RenameNothing(t[q].content, rules);
  }

  lemma UncutCleanIsGoal(t: Tree, clone: Tree, rules: seq<Rule>)
    requires AllSymbols(rules) && Named(rules) && Clean(t, rules) && Uncut(t, clone, rules)
    ensures t == RenamedTree(clone, rules)
  {
    forall q: Path ensures At(t, q) == At(RenamedTree(clone, rules), q) {
      assert At(t, q) == At(clone, q) || At(t, q) == At(RenamedTree(clone, rules), q);
      if At(t, q) == At(clone, q) && q in t && IsTarget(q) && t[q].Plain? { CleanIsRenamed(t, rules, q); }
    }
    SameLooks(t, RenamedTree(clone, rules));
  }

  /** The first part of a text, when it is as long as the text, is the text. */
  lemma WholePrefix(s: string, text: string)
    requires s <= text && |text| <= |s|
    ensures s == text
  {
  }

  /** A target of its full length is the renamed text, or it is the old text and the
      renaming keeps its length. */
  lemma WholeTarget(t: Tree, clone: Tree, rules: seq<Rule>, q: Path)
    requires AllSymbols(rules) && Named(rules) && Ordered(Rewritings(rules))
    requires Whole(t, clone, rules) && Partly(t, clone, rules)
    requires PartlyRenamed(t, clone, rules) || NoneShorter(rules)
    requires q in clone && IsTarget(q) && clone[q].Plain?
    ensures t[q].Plain?
    ensures || t[q].content == Rename(clone[q].content, rules)
            || (t[q].content == clone[q].content && |Rename(clone[q].content, rules)| == |clone[q].content|)
  {
    var s, text := t[q].content, clone[q].content;
    RenameGrowth(text, rules);
    if PartlyRenamed(t, clone, rules) {
      assert Midway(At(t, q), At(clone, q), true, rules);
      if s != text { WholePrefix(s, Rename(text, rules)); }
    } else {
      NeverShrinks(rules, UnitsOf(text, rules));
      WholePrefix(s, text);
    }
  }

  /** Every other entry of its full length is the entry of the clone. */
  lemma WholeOther(t: Tree, clone: Tree, rules: seq<Rule>, q: Path)
    requires Named(rules) && Whole(t, clone, rules) && Partly(t, clone, rules)
    requires q in clone && !(IsTarget(q) && clone[q].Plain?)
    ensures q in t && t[q] == clone[q]
  {
    if PartlyRenamed(t, clone, rules) {
      assert Midway(At(t, q), At(clone, q), IsTarget(q), rules);
    } else if clone[q].Plain? {
      WholePrefix(t[q].content, clone[q].content);
    }
  }

  /** A whole tree is the goal, if its unchanged targets are clean or every new name is
      longer. */
  lemma WholeIsGoal(t: Tree, clone: Tree, rules: seq<Rule>)
    requires AllSymbols(rules) && Named(rules) && Ordered(Rewritings(rules))
    requires Whole(t, clone, rules) && Partly(t, clone, rules)
    requires AllLonger(rules) || (Clean(t, rules) && (PartlyRenamed(t, clone, rules) || NoneShorter(rules)))
    ensures t == RenamedTree(clone, rules)
  {
    forall q: Path ensures At(t, q) == At(RenamedTree(clone, rules), q) {
      if q in clone && IsTarget(q) && clone[q].Plain? {
        WholeTarget(t, clone, rules, q);
        if t[q].content == clone[q].content {
          if AllLonger(rules) { NoGrowthNoChange(clone[q].content, rules); } else { CleanIsRenamed(t, rules, q); }
        }
      } else if q in clone {
        WholeOther(t, clone, rules, q);
      }
    }
    SameLooks(t, RenamedTree(clone, rules));
  }

  lemma MadeIsPartly(b: Record, source: Path, work: Path)
    requires IsBuild(b, source, work) && Made(b, work)
    ensures var t, clone, rules := SubTree(b.after, work), SubTree(b.before, source), RulesOf(b.fncList);
      && Partly(t, clone, rules)
      && (!b.outcome.Killed? ==> PartlyRenamed(t, clone, rules) || t == RenamedTree(clone, rules))
  {
    WorkAfter(b, source, work);
    var clone, rules := SubTree(b.before, source), RulesOf(b.fncList);
    if b.outcome.Built? { GoalIsPartly(clone, rules); }
  }

  lemma GoalIsPartly(clone: Tree, rules: seq<Rule>)
    requires Named(rules)
    ensures PartlyRenamed(RenamedTree(clone, rules), clone, rules)
  {
    forall q: Path ensures Midway(At(RenamedTree(clone, rules), q), At(clone, q), IsTarget(q), rules) {
    }
  }

  /** The list that made the work tree. */
  function ListOf(builds: seq<Record>, j: nat): seq<Rule>
    requires j < |builds|
  {
    RulesOf(builds[j].fncList)
  }

  /** Exactly when the work tree is right, wherever the build that made it was stopped, in
      the copy, between two writes or inside one: when it has the paths of the source and
      every file the length it must have. This is about lists that lengthen every name they
      rename, as the prefix does, `##` names included. */
  lemma {:induction false} RightIffLengths(builds: seq<Record>, source: Path, work: Path, i: nat, j: nat)
    requires IsRun(builds, source, work) && MadeBy(builds, work, i, j)
    requires AllSymbols(ListOf(builds, j)) && Ordered(Rewritings(ListOf(builds, j))) && AllLonger(ListOf(builds, j))
    ensures Named(ListOf(builds, j))
    ensures Right(builds, source, work, i)
       <==> Whole(SubTree(builds[i].after, work), SubTree(builds[j].before, source), ListOf(builds, j))
  {
    var t, clone, rules := SubTree(builds[j].after, work), SubTree(builds[j].before, source), ListOf(builds, j);
    KeptSince(builds, source, work, i, j);
    RightByMaker(builds, source, work, i, j);
    GoalIsWhole(clone, rules);
    MadeIsPartly(builds[j], source, work);
    if Whole(t, clone, rules) { WholeIsGoal(t, clone, rules); }
  }

  /** The list of the project has this shape: the six pasted names, and words. */
  lemma RightForWholeList(builds: seq<Record>, source: Path, work: Path, i: nat, j: nat, words: seq<Rule>)
    requires IsRun(builds, source, work) && MadeBy(builds, work, i, j)
    requires ListOf(builds, j) == PastedRules(PARTS) + words
    requires AllWords(words) && NoChain(words) && AllLonger(words)
    requires forall k :: 0 <= k < |words| ==> words[k].name !in PARTS
    ensures Named(ListOf(builds, j))
    ensures Right(builds, source, work, i)
       <==> Whole(SubTree(builds[i].after, work), SubTree(builds[j].before, source), ListOf(builds, j))
  {
    TheyDiffer();
    WholeListIsOrdered(PARTS, words);
    RightIffLengths(builds, source, work, i, j);
  }

  /** The same for the lines themselves: the six of the head of the list, and bare words,
      no one the prefixed form of an earlier one and none a part of the six. */
  lemma RightForLines(builds: seq<Record>, source: Path, work: Path, i: nat, j: nat, bare: seq<string>)
    requires IsRun(builds, source, work) && MadeBy(builds, work, i, j)
    requires builds[j].fncList == SixLines() + bare
    requires forall k :: 0 <= k < |bare| ==> IsWord(bare[k]) && bare[k] !in PARTS
    requires forall k, m :: 0 <= k < m < |bare| ==> FNC_PREFIX + bare[k] != bare[m]
    ensures Right(builds, source, work, i)
       <==> Whole(SubTree(builds[i].after, work), SubTree(builds[j].before, source), RulesOf(SixLines() + bare))
  {
    BareWordsFit(bare);
    WholeListParsed(bare);
    RightForWholeList(builds, source, work, i, j, PrefixRules(bare));
  }

  /** What right means at each path of the work tree. */
  lemma RightMeans(builds: seq<Record>, source: Path, work: Path, i: nat, j: nat, q: Path)
    requires IsRun(builds, source, work) && MadeBy(builds, work, i, j) && Right(builds, source, work, i)
    ensures var before, after := builds[j].before, builds[i].after;
      && (work + q in after <==> source + q in before)
      && (source + q in before && before[source + q] == Folder ==> after[work + q] == Folder)
      && (source + q in before && before[source + q].Plain? ==>
            if exists base: string ::
              base != "" && (q == ["include", "libyuv", base + ".h"] || q == ["source", base + ".cc"])
            then after[work + q] == Plain(Rename(before[source + q].content, ListOf(builds, j)))
            else after[work + q] == before[source + q])
  {
    RightByMaker(builds, source, work, i, j);
    KeptSince(builds, source, work, i, j);
    SubTreeAt(builds[i].after, work, q);
    SubTreeAt(builds[j].before, source, q);
    RenamedTreeIs(SubTree(builds[j].before, source), ListOf(builds, j), q);
  }

  /** The same for lists that may keep a length or, but for a build killed in the copy,
      shorten names, when no new name can overlap a listed one: then no listed name may be
      left either. */
  lemma {:induction false} RightIffWhole(builds: seq<Record>, source: Path, work: Path, i: nat, j: nat)
    requires IsRun(builds, source, work) && MadeBy(builds, work, i, j)
    requires AllSymbols(ListOf(builds, j)) && Ordered(Rewritings(ListOf(builds, j))) && AllSettled(ListOf(builds, j))
    requires builds[j].outcome.Killed? ==> NoneShorter(ListOf(builds, j))
    ensures Named(ListOf(builds, j))
    ensures Right(builds, source, work, i)
       <==> && Clean(SubTree(builds[i].after, work), ListOf(builds, j))
            && Whole(SubTree(builds[i].after, work), SubTree(builds[j].before, source), ListOf(builds, j))
  {
    var t, clone, rules := SubTree(builds[j].after, work), SubTree(builds[j].before, source), ListOf(builds, j);
    KeptSince(builds, source, work, i, j);
    RightByMaker(builds, source, work, i, j);
    GoalIsClean(clone, rules);
    GoalIsWhole(clone, rules);
    MadeIsPartly(builds[j], source, work);
    if Clean(t, rules) && Whole(t, clone, rules) && t != RenamedTree(clone, rules) {
      WholeIsGoal(t, clone, rules);
    }
  }

  /** For those lists no look at the source is needed, when the build that made the tree got
      past the copy and was not stopped inside a write: no listed name may be left. */
  lemma {:induction false} RightIffClean(builds: seq<Record>, source: Path, work: Path, i: nat, j: nat)
    requires IsRun(builds, source, work) && MadeBy(builds, work, i, j) && !builds[j].outcome.Killed?
    requires AllSymbols(ListOf(builds, j)) && Ordered(Rewritings(ListOf(builds, j))) && AllSettled(ListOf(builds, j))
    requires
      var t, clone := SubTree(builds[j].after, work), SubTree(builds[j].before, source);
      forall q: Path :: At(t, q) == At(clone, q) || At(t, q) == At(RenamedTree(clone, ListOf(builds, j)), q)
    ensures Right(builds, source, work, i) <==> Clean(SubTree(builds[i].after, work), ListOf(builds, j))
  {
    var clone, rules := SubTree(builds[j].before, source), ListOf(builds, j);
    KeptSince(builds, source, work, i, j);
    RightByMaker(builds, source, work, i, j);
    GoalIsClean(clone, rules);
    if Clean(SubTree(builds[j].after, work), rules) {
      UncutCleanIsGoal(SubTree(builds[j].after, work), clone, rules);
    }
  }

  // ---------------------------------------------------------------------------
  // A list that has changed since the copy
  // ---------------------------------------------------------------------------

  /** The work tree is the copy renamed by the list of build `i` itself, which may have
      skipped the renaming. */
  ghost predicate Current(builds: seq<Record>, source: Path, work: Path, i: nat, j: nat)
    requires i < |builds| && j < |builds|
  {
    SubTree(builds[i].after, work) == RenamedTree(SubTree(builds[j].before, source), ListOf(builds, i))
  }

  lemma SameRenamedTree(clone: Tree, rules: seq<Rule>, others: seq<Rule>)
    requires Named(rules) && Named(others)
    ensures RenamedTree(clone, rules) == RenamedTree(clone, others)
       <==> forall q :: q in clone && IsTarget(q) && clone[q].Plain? ==>
              Rename(clone[q].content, rules) == Rename(clone[q].content, others)
  {
    var a, b := RenamedTree(clone, rules), RenamedTree(clone, others);
    if a == b {
      forall q | q in clone && IsTarget(q) && clone[q].Plain?
        ensures Rename(clone[q].content, rules) == Rename(clone[q].content, others)
      {
        assert a[q] == b[q];
      }
    }
  }

  /** Both lists lead every word of the text to the same name. */
  predicate SameEnds(text: string, rules: seq<Rule>, others: seq<Rule>) {
    forall w :: w in Runs(text) ==> Final(rules, w) == Final(others, w)
  }

  lemma RenameIsFinal(text: string, rules: seq<Rule>, k: nat)
    requires AllWords(rules) && k < |Runs(text)|
    ensures Named(rules) && |Runs(Rename(text, rules))| == |Runs(text)|
    ensures Runs(Rename(text, rules))[k] == Final(rules, Runs(text)[k])
  {
    RenameMapsWords(text, rules);
    RenamedIsFinal(rules, Runs(text)[k]);
  }

  lemma SameText(text: string, rules: seq<Rule>, others: seq<Rule>)
    requires AllWords(rules) && AllWords(others) && SameEnds(text, rules, others)
    ensures Named(rules) && Named(others) && Rename(text, rules) == Rename(text, others)
  {
    RenameMapsWords(text, rules);
    RenameMapsWords(text, others);
    forall k | 0 <= k < |Runs(text)| ensures Renamed(rules, Runs(text)[k]) == Renamed(others, Runs(text)[k]) {
      assert Runs(text)[k] in Runs(text);
      RenamedIsFinal(rules, Runs(text)[k]);
      RenamedIsFinal(others, Runs(text)[k]);
    }
    assert RenamedRuns(rules, Runs(text)) == RenamedRuns(others, Runs(text));
    SameRunsSameText(Rename(text, rules), Rename(text, others));
  }

  lemma SameRename(text: string, rules: seq<Rule>, others: seq<Rule>)
    requires AllWords(rules) && AllWords(others)
    ensures Named(rules) && Named(others)
    ensures Rename(text, rules) == Rename(text, others) <==> SameEnds(text, rules, others)
  {
    WordsAreSymbols(rules);
    WordsAreSymbols(others);
    if Rename(text, rules) == Rename(text, others) {
      forall w | w in Runs(text) ensures Final(rules, w) == Final(others, w) {
        var k :| 0 <= k < |Runs(text)| && Runs(text)[k] == w;
        RenameIsFinal(text, rules, k);
        RenameIsFinal(text, others, k);
      }
    }
    if SameEnds(text, rules, others) { SameText(text, rules, others); }
  }

  lemma TargetsAgree(clone: Tree, rules: seq<Rule>, others: seq<Rule>)
    requires AllWords(rules) && AllWords(others) && Named(rules) && Named(others)
    ensures RenamedTree(clone, rules) == RenamedTree(clone, others)
       <==> forall q :: q in clone && IsTarget(q) && clone[q].Plain? ==> SameEnds(clone[q].content, rules, others)
  {
    SameRenamedTree(clone, rules, others);
    forall q | q in clone && IsTarget(q) && clone[q].Plain?
      ensures Rename(clone[q].content, rules) == Rename(clone[q].content, others)
         <==> SameEnds(clone[q].content, rules, others)
    {
      SameRename(clone[q].content, rules, others);
    }
  }

  /** Exactly when a finished work tree is also right by the list of a later build, which
      takes it as it is: when both lists lead every word of its headers and sources, as
      they were in the source tree, to the same name. */
  lemma {:induction false} CurrentIff(builds: seq<Record>, source: Path, work: Path, i: nat, j: nat)
    requires IsRun(builds, source, work) && MadeBy(builds, work, i, j) && builds[j].outcome.Built?
    requires AllWords(ListOf(builds, i)) && AllWords(ListOf(builds, j))
    ensures Current(builds, source, work, i, j)
       <==> forall q: Path, text ::
              TargetText(builds, source, j, q, text) ==> SameEnds(text, ListOf(builds, j), ListOf(builds, i))
  {
    var clone := SubTree(builds[j].before, source);
    KeptSince(builds, source, work, i, j);
    WorkAfter(builds[j], source, work);
    TargetsAgree(clone, ListOf(builds, j), ListOf(builds, i));
    forall q: Path, text
      ensures TargetText(builds, source, j, q, text) <==> q in clone && IsTarget(q) && clone[q] == Plain(text)
    {
    }
    forall q | q in clone && IsTarget(q) && clone[q].Plain?
      ensures TargetText(builds, source, j, q, clone[q].content)
    {
    }
  }

  lemma UnitsAgree(clone: Tree, rules: seq<Rule>, others: seq<Rule>)
    requires SamePasted(rules, others) && Named(rules) && Named(others)
    ensures RenamedTree(clone, rules) == RenamedTree(clone, others)
       <==> forall q :: q in clone && IsTarget(q) && clone[q].Plain? ==>
              SameLookups(UnitsOf(clone[q].content, rules), rules, others)
  {
    SameRenamedTree(clone, rules, others);
    forall q | q in clone && IsTarget(q) && clone[q].Plain?
      ensures Rename(clone[q].content, rules) == Rename(clone[q].content, others)
         <==> SameLookups(UnitsOf(clone[q].content, rules), rules, others)
    {
      SameRenameIff(clone[q].content, rules, others);
    }
  }

  /** The same for lists of any shape that agree on their pasted names: when both lists look
      up every unit of the headers and sources, as they were in the source tree, alike. */
  lemma {:induction false} CurrentIffUnits(builds: seq<Record>, source: Path, work: Path, i: nat, j: nat)
    requires IsRun(builds, source, work) && MadeBy(builds, work, i, j) && builds[j].outcome.Built?
    requires SamePasted(ListOf(builds, j), ListOf(builds, i))
    ensures Named(ListOf(builds, j))
    ensures Current(builds, source, work, i, j)
       <==> forall q: Path, text :: TargetText(builds, source, j, q, text) ==>
              SameLookups(UnitsOf(text, ListOf(builds, j)), ListOf(builds, j), ListOf(builds, i))
  {
    var clone := SubTree(builds[j].before, source);
    KeptSince(builds, source, work, i, j);
    WorkAfter(builds[j], source, work);
    UnitsAgree(clone, ListOf(builds, j), ListOf(builds, i));
    forall q: Path, text
      ensures TargetText(builds, source, j, q, text) <==> q in clone && IsTarget(q) && clone[q] == Plain(text)
    {
    }
    forall q | q in clone && IsTarget(q) && clone[q].Plain?
      ensures TargetText(builds, source, j, q, clone[q].content)
    {
    }
  }

  /** Two versions of the list of the project are such lists: the six pasted names, and
      words that may have been added, dropped, changed or put in another order. */
  lemma CurrentForWholeList(
    builds: seq<Record>, source: Path, work: Path, i: nat, j: nat, a: seq<Rule>, b: seq<Rule>
  )
    requires IsRun(builds, source, work) && MadeBy(builds, work, i, j) && builds[j].outcome.Built?
    requires ListOf(builds, j) == PastedRules(PARTS) + a && ListOf(builds, i) == PastedRules(PARTS) + b
    requires AllWords(a) && AllWords(b) && NoChain(a) && NoChain(b)
    requires forall k :: 0 <= k < |a| ==> a[k].name !in PARTS
    requires forall k :: 0 <= k < |b| ==> b[k].name !in PARTS
    ensures Named(ListOf(builds, j))
    ensures Current(builds, source, work, i, j)
       <==> forall q: Path, text :: TargetText(builds, source, j, q, text) ==>
              SameLookups(UnitsOf(text, ListOf(builds, j)), ListOf(builds, j), ListOf(builds, i))
  {
    TheyDiffer();
    WholeListsAgree(PARTS, a, b);
    CurrentIffUnits(builds, source, work, i, j);
  }

  lemma OneMoreRule(text: string, rules: seq<Rule>, r: Rule)
    requires Named(rules) && IsSymbol(r.name) && IsSymbol(r.newName) && r.name != r.newName
    ensures Named(rules + [r])
    ensures Rename(text, rules + [r]) == Rename(text, rules) <==> !Found(r.name, Rename(text, rules))
  {
    var all := rules + [r];
    assert all[..|rules|] == rules && all[|rules|] == r;
    if Found(r.name, Rename(text, rules)) {
      FoundAgainChanges(r, Rename(text, rules));
    } else {
      ReplaceAbsent(Rename(text, rules), r.name, r.newName);
    }
  }

  /** For a list of any shape that has got one more line since the copy: exactly when the
      new name is found in no header or source of the work tree. */
  lemma {:induction false} CurrentWithOneMore(builds: seq<Record>, source: Path, work: Path, i: nat, j: nat, r: Rule)
    requires IsRun(builds, source, work) && MadeBy(builds, work, i, j) && builds[j].outcome.Built?
    requires ListOf(builds, i) == ListOf(builds, j) + [r]
    requires IsSymbol(r.name) && IsSymbol(r.newName) && r.name != r.newName
    ensures Current(builds, source, work, i, j) <==> Clean(SubTree(builds[i].after, work), [r])
  {
    var t, clone, rules := SubTree(builds[j].after, work), SubTree(builds[j].before, source), ListOf(builds, j);
    KeptSince(builds, source, work, i, j);
    WorkAfter(builds[j], source, work);
    SameRenamedTree(clone, rules, rules + [r]);
    forall q | q in clone && IsTarget(q) && clone[q].Plain?
      ensures t[q].content == Rename(clone[q].content, rules)
      ensures Rename(clone[q].content, rules) == Rename(clone[q].content, rules + [r]) <==> !Found(r.name, t[q].content)
    {
      OneMoreRule(clone[q].content, rules, r);
    }
    if forall q :: q in clone && IsTarget(q) && clone[q].Plain? ==> !Found(r.name, t[q].content) {
      assert Clean(t, [r]);
    }
    if Clean(t, [r]) {
      forall q | q in clone && IsTarget(q) && clone[q].Plain? ensures !Found(r.name, t[q].content) {
        assert !Found([r][0].name, t[q].content);
      }
    }
  }

  lemma BuiltThenSkipped(before: Tree, built: Tree, source: Path, work: Path, fncList: seq<string>, more: seq<string>)
    requires BuildStep(before, built, source, work, fncList, Built)
    ensures var builds := [Record(before, built, fncList, Built), Record(built, built, more, Skipped)];
      IsRun(builds, source, work) && MadeBy(builds, work, 1, 0)
  {
  }

  /** A line that is added to the list after a build does not reach the work tree: the next
      build skips it, although its name is found there. */
  lemma {:induction false} AddedLineIsSkipped(
    before: Tree, built: Tree, source: Path, work: Path, fncList: seq<string>, line: string, r: Rule, q: Path
  )
    requires BuildStep(before, built, source, work, fncList, Built)
    requires ParseLine(line) == Some(r) && IsSymbol(r.name) && IsSymbol(r.newName) && r.name != r.newName
    requires IsTarget(q) && q in SubTree(built, work) && SubTree(built, work)[q].Plain?
    requires Found(r.name, SubTree(built, work)[q].content)
    ensures var builds := [Record(before, built, fncList, Built), Record(built, built, fncList + [line], Skipped)];
      IsRun(builds, source, work) && MadeBy(builds, work, 1, 0) && !Current(builds, source, work, 1, 0)
  {
    var builds := [Record(before, built, fncList, Built), Record(built, built, fncList + [line], Skipped)];
    BuiltThenSkipped(before, built, source, work, fncList, fncList + [line]);
    RulesAppend(fncList, line, r);
    CurrentWithOneMore(builds, source, work, 1, 0, r);
    assert Found([r][0].name, SubTree(built, work)[q].content);
  }

  lemma TwoBuilds(before: Tree, after: Tree, source: Path, work: Path, fncList: seq<string>)
    requires BuildStep(before, after, source, work, fncList, Interrupted)
    ensures IsRun([Record(before, after, fncList, Interrupted), Record(after, after, fncList, Skipped)], source, work)
    ensures MadeBy([Record(before, after, fncList, Interrupted), Record(after, after, fncList, Skipped)], work, 1, 0)
  {
  }

  /** A build that is stopped between the copy and the renaming leaves a work tree that the
      next build takes for finished. */
  lemma {:induction false} InterruptionStays(
    before: Tree, cloned: Tree, source: Path, work: Path, fncList: seq<string>, q: Path
  )
    requires WellFormed(before) && Apart(source, work) && work !in before
    requires CanCopy(before, source, work) && Copied(before, cloned, source, work)
    requires IsTarget(q) && q in SubTree(before, source) && SubTree(before, source)[q].Plain?
    requires Rename(SubTree(before, source)[q].content, RulesOf(fncList)) != SubTree(before, source)[q].content
    ensures var builds := [Record(before, cloned, fncList, Interrupted), Record(cloned, cloned, fncList, Skipped)];
      IsRun(builds, source, work) && !Right(builds, source, work, 1)
  {
    var first := Record(before, cloned, fncList, Interrupted);
    var builds := [first, Record(cloned, cloned, fncList, Skipped)];
    JustCloned(before, cloned, source, work, fncList);
    TwoBuilds(before, cloned, source, work, fncList);
    assert SubTree(cloned, work) != Goal(first, source) by {
      assert SubTree(cloned, work)[q] != Goal(first, source)[q];
    }
    RightByMaker(builds, source, work, 1, 0);
  }

  /** A renamed file of the tree that build `j` made, as it was in the source tree. */
  predicate TargetText(builds: seq<Record>, source: Path, j: nat, q: Path, text: string)
    requires j < |builds|
  {
    IsTarget(q) && At(SubTree(builds[j].before, source), q) == Present(Plain(text))
  }

  lemma {:induction false} TargetRenamed(
    builds: seq<Record>, source: Path, work: Path, i: nat, j: nat, q: Path, text: string
  )
    requires IsRun(builds, source, work) && MadeBy(builds, work, i, j) && builds[j].outcome.Built?
    requires TargetText(builds, source, j, q, text)
    ensures At(SubTree(builds[i].after, work), q) == Present(Plain(Rename(text, RulesOf(builds[j].fncList))))
  {
    KeptSince(builds, source, work, i, j);
    WorkAfter(builds[j], source, work);
  }

  /** From the list to the disk: after any number of builds, no header or source of the
      work tree holds a listed name between word boundaries any more. */
  lemma {:induction false} NoListedNameInWorkTree(
    builds: seq<Record>, source: Path, work: Path, i: nat, j: nat, q: Path, text: string, n: nat
  )
    requires IsRun(builds, source, work) && MadeBy(builds, work, i, j) && builds[j].outcome.Built?
    requires TargetText(builds, source, j, q, text)
    requires AllSymbols(RulesOf(builds[j].fncList)) && Ordered(Rewritings(RulesOf(builds[j].fncList)))
    requires n < |RulesOf(builds[j].fncList)| && Settled(RulesOf(builds[j].fncList), RulesOf(builds[j].fncList)[n].name)
    ensures At(SubTree(builds[i].after, work), q).Present? && SubTree(builds[i].after, work)[q].Plain?
    ensures !Found(RulesOf(builds[j].fncList)[n].name, SubTree(builds[i].after, work)[q].content)
  {
    TargetRenamed(builds, source, work, i, j, q, text);
    NoNameLeft(text, RulesOf(builds[j].fncList), n);
  }

  /** For a list of any shape: every header or source of the work tree is its original, each
      unit looked up once. */
  lemma {:induction false} UnitsInWorkTree(
    builds: seq<Record>, source: Path, work: Path, i: nat, j: nat, q: Path, text: string
  )
    requires IsRun(builds, source, work) && MadeBy(builds, work, i, j) && builds[j].outcome.Built?
    requires TargetText(builds, source, j, q, text)
    requires AllSymbols(ListOf(builds, j)) && Ordered(Rewritings(ListOf(builds, j)))
    ensures Named(ListOf(builds, j))
    ensures Join(UnitsOf(text, ListOf(builds, j))) == text
    ensures At(SubTree(builds[i].after, work), q)
         == Present(Plain(Join(LookupRuns(ListOf(builds, j), UnitsOf(text, ListOf(builds, j))))))
  {
    TargetRenamed(builds, source, work, i, j, q, text);
    RenameUnits(text, ListOf(builds, j));
  }

  /** The list has no chains and captures no word of the files, or it has chains but gives
      different names different new names, none of them a word of the files. */
  ghost predicate KeepsLinks(files: seq<string>, rules: seq<Rule>) {
    && AllWords(rules)
    && ((NoChain(rules) && NoCapture(files, rules))
        || (Injective(rules) && forall i :: 0 <= i < |rules| ==> !InFiles(files, rules[i].newName)))
  }

  lemma KeepsLinksKeeps(files: seq<string>, rules: seq<Rule>)
    requires KeepsLinks(files, rules)
    ensures Named(rules) && LinksKept(files, rules)
  {
    if NoChain(rules) && NoCapture(files, rules) {
      LinksKeptIff(files, rules);
    } else {
      InjectiveKeepsLinks(files, rules);
    }
  }

  /** From the list to the disk: two runs of any two headers or sources of the work tree
      are the same exactly when they were the same in the source tree. */
  lemma {:induction false} LinksInWorkTree(builds: seq<Record>, source: Path, work: Path, i: nat, j: nat,
                        q: Path, text: string, k: nat, q': Path, text': string, k': nat)
    requires IsRun(builds, source, work) && MadeBy(builds, work, i, j) && builds[j].outcome.Built?
    requires TargetText(builds, source, j, q, text) && TargetText(builds, source, j, q', text')
    requires
      var rules, files := ListOf(builds, j), [text, text'];
      && AllWords(rules)
      && ((NoChain(rules) && NoCapture(files, rules))
          || ((forall m, n :: 0 <= m < |rules| && 0 <= n < |rules| && rules[m].newName == rules[n].newName ==>
                 rules[m].name == rules[n].name)
              && forall m :: 0 <= m < |rules| ==> !InFiles(files, rules[m].newName)))
    requires k < |Runs(text)| && k' < |Runs(text')|
    ensures At(SubTree(builds[i].after, work), q).Present? && SubTree(builds[i].after, work)[q].Plain?
    ensures At(SubTree(builds[i].after, work), q').Present? && SubTree(builds[i].after, work)[q'].Plain?
    ensures
      var t := SubTree(builds[i].after, work);
      var now, now' := Runs(t[q].content), Runs(t[q'].content);
      k < |now| && k' < |now'| && (now[k] == now'[k'] <==> Runs(text)[k] == Runs(text')[k'])
  {
    TargetRenamed(builds, source, work, i, j, q, text);
    TargetRenamed(builds, source, work, i, j, q', text');
    KeepsLinksKeeps([text, text'], RulesOf(builds[j].fncList));
    assert LinkKept([text, text'][0], k, [text, text'][1], k', RulesOf(builds[j].fncList));
  }

  /** The same for units and a list of any shape, as the reverse list finds them on the disk. */
  lemma {:induction false} UnitLinksInWorkTree(
    builds: seq<Record>, source: Path, work: Path, i: nat, j: nat,
    q: Path, text: string, k: nat, q': Path, text': string, k': nat
  )
    requires IsRun(builds, source, work) && MadeBy(builds, work, i, j) && builds[j].outcome.Built?
    requires TargetText(builds, source, j, q, text) && TargetText(builds, source, j, q', text')
    requires Reversible(ListOf(builds, j)) && Named(ListOf(builds, j)) && Named(Undo(ListOf(builds, j)))
    requires NoneMerges([text, text'], ListOf(builds, j)) && NoUnitCapture([text, text'], ListOf(builds, j))
    requires k < |UnitsOf(text, ListOf(builds, j))| && k' < |UnitsOf(text', ListOf(builds, j))|
    ensures At(SubTree(builds[i].after, work), q).Present? && SubTree(builds[i].after, work)[q].Plain?
    ensures At(SubTree(builds[i].after, work), q').Present? && SubTree(builds[i].after, work)[q'].Plain?
    ensures
      var t, undo := SubTree(builds[i].after, work), Undo(ListOf(builds, j));
      var now, now' := UnitsOf(t[q].content, undo), UnitsOf(t[q'].content, undo);
      k < |now| && k' < |now'|
      && (now[k] == now'[k'] <==> UnitsOf(text, ListOf(builds, j))[k] == UnitsOf(text', ListOf(builds, j))[k'])
  {
    TargetRenamed(builds, source, work, i, j, q, text);
    TargetRenamed(builds, source, work, i, j, q', text');
    UnitLinksKeptIff([text, text'], ListOf(builds, j));
    assert UnitLinkKept([text, text'][0], k, [text, text'][1], k', ListOf(builds, j));
  }
}
