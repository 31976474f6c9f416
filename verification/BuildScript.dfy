/** The build script around the renaming: clone the source tree once, list the files, and
    rename them only in a tree that was just cloned. */
module BuildScript {
  import opened Disks
  import opened Parallel
  import opened Rules
  import opened Wrappers

  // ---------------------------------------------------------------------------
  // Sub-trees
  // ---------------------------------------------------------------------------

  /** The tree below `dir`, by relative paths; it is empty when `dir` does not exist. */
  function SubTree(t: Tree, dir: Path): Tree {
    var paths := set p | p in t && dir <= p :: p[|dir|..];
    assert forall p: Path :: p in t && dir <= p ==> dir + p[|dir|..] == p;
    map q | q in paths :: t[dir + q]
  }

  lemma SubTreeAt(t: Tree, dir: Path, q: Path)
    ensures At(SubTree(t, dir), q) == At(t, dir + q)
  {
    assert (dir + q)[|dir|..] == q;
    assert forall p: Path :: dir <= p ==> p == dir + p[|dir|..];
  }

  lemma SameSubTree(a: Tree, b: Tree, x: Path, y: Path)
    requires forall q: Path :: At(a, x + q) == At(b, y + q)
    ensures SubTree(a, x) == SubTree(b, y)
  {
    forall q: Path ensures At(SubTree(a, x), q) == At(SubTree(b, y), q) {
      SubTreeAt(a, x, q);
      SubTreeAt(b, y, q);
    }
    SameLooks(SubTree(a, x), SubTree(b, y));
  }

  /** All folders that lead to `dir` exist. */
  ghost predicate Reachable(t: Tree, dir: Path) {
    forall p: Path :: p < dir ==> p in t && t[p].Folder?
  }

  lemma {:induction false} NothingBelow(t: Tree, dir: Path, p: Path)
    requires WellFormed(t) && p in t && dir <= p
    ensures dir in t
    decreases |p|
  {
    if p != dir {
      assert [] < p;
      NothingBelow(t, dir, p[..|p| - 1]);
    }
  }

  /** A copy to where nothing was is the source again, and changes nothing else. */
  lemma CopyOfAbsent(before: Tree, after: Tree, src: Path, dst: Path)
    requires WellFormed(before) && Apart(src, dst) && dst !in before && src in before && Copied(before, after, src, dst)
    ensures SubTree(after, dst) == SubTree(before, src)
    ensures SubTree(after, src) == SubTree(before, src)
  {
    forall q: Path ensures At(after, dst + q) == At(before, src + q) {
      assert At(after, dst + q) == CopiedAt(before, src, dst, dst + q);
      assert Counterpart(src, dst, dst + q) == src + q;
      if dst + q in before { NothingBelow(before, dst, dst + q); }
      if dst + q <= dst { assert q == []; assert src + q == src; }
    }
    SameSubTree(after, before, dst, src);
    forall q: Path ensures At(after, src + q) == At(before, src + q) {
      assert At(after, src + q) == CopiedAt(before, src, dst, src + q);
      ApartBelow(src, dst, src + q);
    }
    SameSubTree(after, before, src, src);
  }

  // ---------------------------------------------------------------------------
  // Cloning
  // ---------------------------------------------------------------------------

  datatype Clone = AlreadyThere | Cloned | Panicked | Killed

  function RemoveDirAll(t: Tree, dir: Path): Tree {
    map p | p in t && !(dir <= p) :: t[p]
  }

  /** A failed copy, cleaned up, leaves the disk as it was. */
  lemma CleanedUp(before: Tree, after: Tree, dir: Path)
    requires WellFormed(before) && Reachable(before, dir) && dir !in before && OnlyBelow(before, after, dir)
    ensures RemoveDirAll(after, dir) == before
  {
    forall p: Path ensures At(RemoveDirAll(after, dir), p) == At(before, p) {
      if dir <= p {
        if p in before { NothingBelow(before, dir, p); }
      } else if p <= dir {
        assert p < dir;
      }
    }
    SameLooks(RemoveDirAll(after, dir), before);
  }

  /** A part of a copy that may have been stopped and partly removed again. */
  ghost predicate PartlyCopied(t: Tree, clone: Tree) {
    forall q :: q in t ==> (q == [] && t[q].Folder?) || (q in clone && CutOf(Present(t[q]), clone[q]))
  }

  /** What is left below `dir` when a copy to it is stopped. */
  lemma BegunIsPartlyCopied(before: Tree, after: Tree, source: Path, dir: Path)
    requires WellFormed(before) && dir !in before && Begun(before, after, source, dir)
    ensures PartlyCopied(SubTree(after, dir), SubTree(before, source))
  {
    var t, clone := SubTree(after, dir), SubTree(before, source);
    forall q | q in t ensures (q == [] && t[q].Folder?) || (q in clone && CutOf(Present(t[q]), clone[q])) {
      var p := dir + q;
      SubTreeAt(after, dir, q);
      SubTreeAt(before, source, q);
      assert Counterpart(source, dir, p) == source + q;
      if p in before { NothingBelow(before, dir, p); }
    }
  }

  /** The entry has been removed, as everything below it has been before. */
  predicate Gone(t: Tree, removed: set<Path>, p: Path) {
    forall q :: q in t && p <= q ==> q in removed
  }

  function RemoveSome(t: Tree, dir: Path, removed: set<Path>): Tree {
    map p | p in t && !(dir <= p && Gone(t, removed, p)) :: t[p]
  }

  lemma RemovalKeepsForm(t: Tree, dir: Path, removed: set<Path>)
    requires WellFormed(t) && dir != []
    ensures WellFormed(RemoveSome(t, dir, removed))
    ensures WellFormed(RemoveDirAll(t, dir))
  {
    var less := RemoveSome(t, dir, removed);
    forall p | p in less && [] < p ensures p[..|p| - 1] in less && less[p[..|p| - 1]].Folder? {
      GoneBelow(t, removed, p[..|p| - 1], p);
    }
  }

  lemma GoneBelow(t: Tree, removed: set<Path>, p: Path, q: Path)
    requires p <= q
    ensures Gone(t, removed, p) ==> Gone(t, removed, q)
  {
  }

  lemma StillPartlyCopied(before: Tree, after: Tree, source: Path, dir: Path, removed: set<Path>)
    requires PartlyCopied(SubTree(after, dir), SubTree(before, source)) && OnlyBelow(before, after, dir)
    ensures PartlyCopied(SubTree(RemoveSome(after, dir, removed), dir), SubTree(before, source))
    ensures OnlyBelow(before, RemoveSome(after, dir, removed), dir)
  {
    var less := RemoveSome(after, dir, removed);
    forall q | q in SubTree(less, dir)
      ensures q in SubTree(after, dir) && SubTree(less, dir)[q] == SubTree(after, dir)[q]
    {
      SubTreeAt(less, dir, q);
      SubTreeAt(after, dir, q);
    }
    forall p: Path | !(dir <= p) ensures At(less, p) == At(after, p) {
    }
  }

  /** Clones the source tree unless the work tree exists. When the copy fails, the partial
      work tree is removed again before the build stops; but the build may also be killed
      before or during that removal. */
  method CloneIfNeeded(disk: Disk, source: Path, libyuvDir: Path, faulty: bool) returns (r: Clone)
    requires WellFormed(disk.nodes) && Apart(source, libyuvDir)
    modifies disk
    ensures WellFormed(disk.nodes)
    ensures r.AlreadyThere? <==> libyuvDir in old(disk.nodes)
    ensures r.AlreadyThere? ==> disk.nodes == old(disk.nodes)
    ensures r.Cloned? ==> CanCopy(old(disk.nodes), source, libyuvDir)
    ensures r.Cloned? ==> Copied(old(disk.nodes), disk.nodes, source, libyuvDir)
    ensures r.Cloned? ==> SubTree(disk.nodes, libyuvDir) == SubTree(old(disk.nodes), source)
    ensures OnlyBelow(old(disk.nodes), disk.nodes, libyuvDir)
    ensures r.Panicked? ==> libyuvDir !in disk.nodes
    ensures r.Panicked? && Reachable(old(disk.nodes), libyuvDir) ==> disk.nodes == old(disk.nodes)
    ensures r.Killed? ==> faulty && PartlyCopied(SubTree(disk.nodes, libyuvDir), SubTree(old(disk.nodes), source))
    ensures !faulty && r.Panicked? ==> !CanCopy(old(disk.nodes), source, libyuvDir)
  {
    ghost var before := disk.nodes;
    if libyuvDir in disk.nodes {
      return AlreadyThere;
    }
    Rootless(before, source);
    ApartIsSafe(before, source, libyuvDir);
    var ok := disk.CopyDir(source, libyuvDir, faulty);
    if !ok {
      ghost var copied := disk.nodes;
      var killed: bool := *;
      if faulty && killed {
        var removed: set<Path> := *;
        BegunIsPartlyCopied(before, disk.nodes, source, libyuvDir);
        StillPartlyCopied(before, disk.nodes, source, libyuvDir, removed);
        RemovalKeepsForm(copied, libyuvDir, removed);
        disk.nodes := RemoveSome(disk.nodes, libyuvDir, removed);
        return Clone.Killed;
      }
      if Reachable(before, libyuvDir) { CleanedUp(before, disk.nodes, libyuvDir); }
      RemovalKeepsForm(copied, libyuvDir, {});
      disk.nodes := RemoveDirAll(disk.nodes, libyuvDir);
      return Panicked;
    }
    CopyOfAbsent(before, disk.nodes, source, libyuvDir);
    r := Cloned;
  }

  lemma Rootless(t: Tree, dir: Path)
    requires WellFormed(t)
    ensures Rooted(t, dir)
  {
    forall p | p in t && dir < p ensures p[..|p| - 1] in t && t[p[..|p| - 1]].Folder? {
      assert [] < p;
    }
  }

  // ---------------------------------------------------------------------------
  // The files to rename
  // ---------------------------------------------------------------------------

  function LastDot(name: string): (k: int)
    ensures -1 <= k < |name|
    ensures k >= 0 ==> name[k] == '.'
    ensures forall i :: k < i < |name| ==> name[i] != '.'
  {
    if name == "" then -1
    else if name[|name| - 1] == '.' then |name| - 1
    else LastDot(name[..|name| - 1])
  }

  /** What follows the last dot; a leading dot does not start an extension. */
  function Extension(name: string): Option<string> {
    if LastDot(name) <= 0 then None else Some(name[LastDot(name) + 1..])
  }

  lemma OnlyLastDot(name: string, k: nat)
    requires k < |name| && name[k] == '.' && forall i :: k < i < |name| ==> name[i] != '.'
    ensures LastDot(name) == k
  {
  }

  /** A name has the extension that follows its last dot, unless that dot comes first. */
  lemma ExtensionOf(base: string, ext: string)
    requires '.' !in ext
    ensures Extension(base + ['.'] + ext) == if base == "" then None else Some(ext)
  {
    var name := base + ['.'] + ext;
    assert name[|base| + 1..] == ext;
    assert forall i :: |base| < i < |name| ==> name[i] == ext[i - |base| - 1];
    OnlyLastDot(name, |base|);
  }

  /** A name without a dot, or with a dot in front only, has no extension. */
  lemma NoExtension(name: string)
    ensures Extension(name).None? <==> forall i :: 0 < i < |name| ==> name[i] != '.'
  {
    if Extension(name).None? {
      assert LastDot(name) <= 0;
    }
  }

  /** The files that have the extension `ext` are those named by a base, a dot and `ext`. */
  lemma HasExtensionIff(name: string, ext: string)
    requires '.' !in ext
    ensures Extension(name) == Some(ext) <==> exists base: string :: base != "" && name == base + ['.'] + ext
  {
    if base: string :| base != "" && name == base + ['.'] + ext {
      ExtensionOf(base, ext);
    }
    if Extension(name) == Some(ext) {
      var k := LastDot(name);
      assert name == name[..k] + ['.'] + ext;
    }
  }

  const INCLUDE: Path := ["include", "libyuv"]
  const SOURCE: Path := ["source"]

  predicate HasExtension(dir: Path, ext: string, q: Path) {
    |q| == |dir| + 1 && dir < q && Extension(q[|dir|]) == Some(ext)
  }

  /** The relative paths of the files that are renamed. */
  predicate IsTarget(q: Path) {
    HasExtension(INCLUDE, "h", q) || HasExtension(SOURCE, "cc", q)
  }

  lemma IsChild(dir: Path, q: Path)
    ensures |q| == |dir| + 1 && dir < q <==> exists c: string :: q == dir + [c]
  {
    if |q| == |dir| + 1 && dir < q { assert q == dir + [q[|dir|]]; }
  }

  lemma HasExtensionAt(dir: Path, ext: string, q: Path)
    requires '.' !in ext
    ensures HasExtension(dir, ext, q) <==> exists base: string :: base != "" && q == dir + [base + ['.'] + ext]
  {
    if HasExtension(dir, ext, q) {
      HasExtensionIff(q[|dir|], ext);
      var base: string :| base != "" && q[|dir|] == base + ['.'] + ext;
      assert q == dir + [base + ['.'] + ext];
    }
    if base: string :| base != "" && q == dir + [base + ['.'] + ext] {
      ExtensionOf(base, ext);
      assert q[|dir|] == base + ['.'] + ext;
    }
  }

  /** Which files are renamed: the headers of `include/libyuv` and the sources of `source`. */
  lemma TargetIff(q: Path)
    ensures IsTarget(q) <==> exists base: string ::
      base != "" && (q == ["include", "libyuv", base + ".h"] || q == ["source", base + ".cc"])
  {
    HasExtensionAt(INCLUDE, "h", q);
    HasExtensionAt(SOURCE, "cc", q);
    forall base: string
      ensures INCLUDE + [base + ['.'] + "h"] == ["include", "libyuv", base + ".h"]
      ensures SOURCE + [base + ['.'] + "cc"] == ["source", base + ".cc"]
    {
      assert base + ['.'] + "h" == base + ".h" && base + ['.'] + "cc" == base + ".cc";
    }
  }

  /** The renaming of a whole tree. */
  function RenamedTree(t: Tree, rules: seq<Rule>): Tree
    requires Named(rules)
  {
    map q | q in t :: if IsTarget(q) then RenamedEntry(t[q], rules) else t[q]
  }

  /** The renamed copy, written out: the same paths, a renamed text in every header of
      `include/libyuv` and every source of `source`, and everything else as it was. */
  lemma RenamedTreeIs(t: Tree, rules: seq<Rule>, q: Path)
    requires Named(rules)
    ensures q in RenamedTree(t, rules) <==> q in t
    ensures q in t && t[q] == Folder ==> RenamedTree(t, rules)[q] == Folder
    ensures q in t && t[q].Plain? ==>
      if exists base: string :: base != "" && (q == ["include", "libyuv", base + ".h"] || q == ["source", base + ".cc"])
      then RenamedTree(t, rules)[q] == Plain(Rename(t[q].content, rules))
      else RenamedTree(t, rules)[q] == t[q]
  {
    TargetIff(q);
  }

  ghost predicate Lists(t: Tree, dir: Path, ext: string, files: seq<Path>) {
    && Distinct(files)
    && forall p: Path :: p in files <==> p in t && HasExtension(dir, ext, p)
  }

  /** Every entry of the directory has an extension. */
  ghost predicate Listable(t: Tree, dir: Path) {
    && dir in t && t[dir].Folder?
    && forall c :: c in Children(t, dir) ==> Extension(c).Some?
  }

  lemma ListableIff(t: Tree, dir: Path)
    ensures Listable(t, dir) <==>
      && dir in t && t[dir] == Folder
      && forall c: string :: dir + [c] in t ==> exists k :: 0 < k < |c| && c[k] == '.'
  {
    forall c: string ensures Extension(c).Some? <==> exists k :: 0 < k < |c| && c[k] == '.' {
      NoExtension(c);
    }
  }

  lemma ListsIff(t: Tree, dir: Path, ext: string, files: seq<Path>)
    requires Lists(t, dir, ext, files) && '.' !in ext
    ensures forall p: Path :: p in files <==>
      p in t && exists base: string :: base != "" && p == dir + [base + ['.'] + ext]
  {
    forall p: Path ensures p in files <==>
      p in t && exists base: string :: base != "" && p == dir + [base + ['.'] + ext]
    {
      HasExtensionAt(dir, ext, p);
    }
  }

  /** The listing so far: the names in `done` have been read. */
  ghost predicate ListsSome(dir: Path, ext: string, done: set<string>, files: seq<Path>) {
    && Distinct(files)
    && forall p: Path :: p in files <==> HasExtension(dir, ext, p) && p[|dir|] in done
  }

  lemma ListOne(dir: Path, ext: string, done: set<string>, files: seq<Path>, c: string)
    requires ListsSome(dir, ext, done, files) && c !in done
    ensures ListsSome(dir, ext, done + {c}, if Extension(c) == Some(ext) then files + [dir + [c]] else files)
  {
    assert forall p: Path :: HasExtension(dir, ext, p) && p[|dir|] == c ==> p == dir + [c];
    assert (dir + [c])[|dir|] == c;
  }

  lemma ListedAll(t: Tree, dir: Path, ext: string, files: seq<Path>)
    requires ListsSome(dir, ext, Children(t, dir), files)
    ensures Lists(t, dir, ext, files)
  {
    assert forall p: Path :: HasExtension(dir, ext, p) ==> p == dir + [p[|dir|]];
  }

  /** The entries are read one after the other. An entry without an extension is a panic. */
  method FilterEntries(dir: Path, ext: string, names: set<string>) returns (ok: bool, files: seq<Path>)
    ensures ok ==> ListsSome(dir, ext, names, files)
    ensures ok <==> forall c :: c in names ==> Extension(c).Some?
  {
    files := [];
    var rest := names;
    while rest != {}
      invariant rest <= names
      invariant forall c :: c in names - rest ==> Extension(c).Some?
      invariant ListsSome(dir, ext, names - rest, files)
      decreases rest
    {
      var c :| c in rest;
      if Extension(c).None? {
        return false, files;
      }
      ListOne(dir, ext, names - rest, files, c);
      assert names - rest + {c} == names - (rest - {c});
      rest := rest - {c};
      if Extension(c).value == ext {
        files := files + [dir + [c]];
      }
    }
    assert names - rest == names;
    ok := true;
  }

  /** Lists the files of a directory with one extension, in the order the directory is
      read. It panics when the directory cannot be read or an entry has no extension. */
  method ListFiles(disk: Disk, dir: Path, ext: string, faulty: bool) returns (ok: bool, files: seq<Path>)
    ensures ok ==> Lists(disk.nodes, dir, ext, files)
    ensures !faulty ==> (ok <==> Listable(disk.nodes, dir))
    ensures !faulty ==> (ok <==>
      && dir in disk.nodes && disk.nodes[dir] == Folder
      && forall c: string :: dir + [c] in disk.nodes ==> exists k :: 0 < k < |c| && c[k] == '.')
    ensures ok && '.' !in ext ==> forall p: Path :: p in files <==>
      p in disk.nodes && exists base: string :: base != "" && p == dir + [base + ['.'] + ext]
    ensures ok ==> forall i, j :: 0 <= i < j < |files| ==> files[i] != files[j]
  {
    ListableIff(disk.nodes, dir);
    var names: set<string>;
    ok, names := disk.ReadDir(dir, faulty);
    files := [];
    if ok {
      ok, files := FilterEntries(dir, ext, names);
    }
    if ok {
      ListedAll(disk.nodes, dir, ext, files);
      if '.' !in ext { ListsIff(disk.nodes, dir, ext, files); }
    }
  }

  // ---------------------------------------------------------------------------
  // One build
  // ---------------------------------------------------------------------------

  datatype Outcome = Skipped | CopyFailed | Killed | Interrupted | Built

  /** Each path of the tree is as it was in the clone or, for a target, the first part of
      its renamed form, up to all of it. */
  ghost predicate PartlyRenamed(t: Tree, clone: Tree, rules: seq<Rule>)
    requires Named(rules)
  {
    forall q: Path :: Midway(At(t, q), At(clone, q), IsTarget(q), rules)
  }

  /** What one build does to the disk. Only the work tree changes, and only when it was not
      there: it becomes the renamed copy of the source, unless the build stops on its way,
      while copying or while renaming. */
  ghost predicate BuildStep(
    before: Tree, after: Tree, source: Path, work: Path, fncList: seq<string>, outcome: Outcome
  ) {
    var clone, rules := SubTree(before, source), RulesOf(fncList);
    && OnlyBelow(before, after, work)
    && (outcome.Skipped? <==> work in before)
    && (outcome.Skipped? ==> after == before)
    && (outcome.CopyFailed? ==> work !in after && (Reachable(before, work) ==> after == before))
    && (outcome.Killed? ==> PartlyCopied(SubTree(after, work), clone))
    && (outcome.Interrupted? ==> PartlyRenamed(SubTree(after, work), clone, rules))
    && (outcome.Built? ==> SubTree(after, work) == RenamedTree(clone, rules))
    && (outcome.Interrupted? || outcome.Built? ==> work in after)
  }

  /** What a build that gets through leaves at each path of the work tree. */
  lemma BuiltMeans(before: Tree, after: Tree, source: Path, work: Path, fncList: seq<string>, q: Path)
    requires BuildStep(before, after, source, work, fncList, Built)
    ensures work + q in after <==> source + q in before
    ensures source + q in before && before[source + q] == Folder ==> after[work + q] == Folder
    ensures source + q in before && before[source + q].Plain? ==>
      if exists base: string :: base != "" && (q == ["include", "libyuv", base + ".h"] || q == ["source", base + ".cc"])
      then after[work + q] == Plain(Rename(before[source + q].content, RulesOf(fncList)))
      else after[work + q] == before[source + q]
  {
    SubTreeAt(after, work, q);
    SubTreeAt(before, source, q);
    RenamedTreeIs(SubTree(before, source), RulesOf(fncList), q);
  }

  /** What any build leaves outside the work tree. */
  lemma BuildKeepsOthers(
    before: Tree, after: Tree, source: Path, work: Path, fncList: seq<string>, outcome: Outcome, p: Path
  )
    requires BuildStep(before, after, source, work, fncList, outcome) && !(work <= p)
    ensures p in before ==> p in after && after[p] == before[p]
    ensures p !in before && p in after ==> p < work && after[p] == Folder
  {
    OnlyBelowMeans(before, after, work, p);
  }

  lemma SkippedMeans(before: Tree, after: Tree, source: Path, work: Path, fncList: seq<string>, outcome: Outcome)
    requires BuildStep(before, after, source, work, fncList, outcome)
    ensures outcome == Skipped <==> work in before
    ensures work in before ==> after == before
  {
  }

  /** A failed copy that was cleaned up leaves no work tree; where the folders on the way
      to it existed, it leaves nothing at all. */
  lemma CopyFailedMeans(before: Tree, after: Tree, source: Path, work: Path, fncList: seq<string>)
    requires BuildStep(before, after, source, work, fncList, CopyFailed)
    ensures work !in after
    ensures (forall p: Path :: p < work ==> p in before && before[p] == Folder) ==> after == before
  {
  }

  /** A killed copy leaves only paths of the source, and first parts of its files. */
  lemma KilledMeans(before: Tree, after: Tree, source: Path, work: Path, fncList: seq<string>, q: Path)
    requires BuildStep(before, after, source, work, fncList, Outcome.Killed) && work + q in after
    ensures (q == [] && after[work + q] == Folder)
         || (source + q in before && before[source + q] == Folder && after[work + q] == Folder)
         || (source + q in before && before[source + q].Plain? && after[work + q].Plain?
             && after[work + q].content <= before[source + q].content)
  {
    SubTreeAt(after, work, q);
    SubTreeAt(before, source, q);
    assert q in SubTree(after, work);
  }

  /** What an interrupted renaming leaves at each path of the work tree. */
  lemma InterruptedMeans(before: Tree, after: Tree, source: Path, work: Path, fncList: seq<string>, q: Path)
    requires BuildStep(before, after, source, work, fncList, Interrupted)
    ensures work + q in after <==> source + q in before
    ensures source + q in before && before[source + q] == Folder ==> after[work + q] == Folder
    ensures source + q in before && before[source + q].Plain? ==>
      || after[work + q] == before[source + q]
      || (&& (exists base: string ::
                base != "" && (q == ["include", "libyuv", base + ".h"] || q == ["source", base + ".cc"]))
          && after[work + q].Plain?
          && after[work + q].content <= Rename(before[source + q].content, RulesOf(fncList)))
  {
    var t, clone := SubTree(after, work), SubTree(before, source);
    SubTreeAt(after, work, q);
    SubTreeAt(before, source, q);
    assert Midway(At(t, q), At(clone, q), IsTarget(q), RulesOf(fncList));
    TargetIff(q);
  }

  lemma RelativeTarget(work: Path, dir: Path, ext: string, q: Path)
    ensures HasExtension(work + dir, ext, work + q) <==> HasExtension(dir, ext, q)
  {
    if |q| == |dir| + 1 {
      assert (work + q)[|work|..|work + dir|] == q[..|dir|];
      assert (work + dir)[|work|..] == dir;
    }
  }

  /** The files the two listings find are the targets of the work tree. */
  lemma ListedTargets(t: Tree, work: Path, headers: seq<Path>, sources: seq<Path>, q: Path)
    requires Lists(t, work + INCLUDE, "h", headers) && Lists(t, work + SOURCE, "cc", sources)
    ensures work + q in headers + sources <==> work + q in t && IsTarget(q)
  {
    RelativeTarget(work, INCLUDE, "h", q);
    RelativeTarget(work, SOURCE, "cc", q);
  }

  lemma ListsApart(t: Tree, work: Path, headers: seq<Path>, sources: seq<Path>)
    requires Lists(t, work + INCLUDE, "h", headers) && Lists(t, work + SOURCE, "cc", sources)
    ensures Distinct(headers + sources)
    ensures forall p: Path :: p in headers + sources ==> work <= p
  {
    assert forall p: Path :: p in headers ==> |p| == |work| + 3;
    assert forall p: Path :: p in sources ==> |p| == |work| + 2;
    forall i, j | 0 <= i < j < |headers + sources| ensures (headers + sources)[i] != (headers + sources)[j] {
      if j < |headers| {
        assert headers[i] != headers[j];
      } else if |headers| <= i {
        assert sources[i - |headers|] != sources[j - |headers|];
      } else {
        assert headers[i] in headers && sources[j - |headers|] in sources;
      }
    }
    forall p: Path | p in headers + sources ensures work <= p {
      assert work <= work + INCLUDE && work <= work + SOURCE;
    }
  }

  /** Renaming the listed files of the disk is renaming the work tree. */
  lemma RenamedFilesAt(t: Tree, work: Path, headers: seq<Path>, sources: seq<Path>, rules: seq<Rule>, q: Path)
    requires Named(rules)
    requires Lists(t, work + INCLUDE, "h", headers) && Lists(t, work + SOURCE, "cc", sources)
    ensures At(RenamedFiles(t, headers + sources, rules), work + q) == At(RenamedTree(SubTree(t, work), rules), q)
  {
    SubTreeAt(t, work, q);
    ListedTargets(t, work, headers, sources, q);
  }

  /** Files stay files and folders stay folders. */
  lemma RenameKeepsForm(t: Tree, after: Tree, files: seq<Path>, rules: seq<Rule>)
    requires Named(rules) && WellFormed(t) && AllMidway(after, t, files, rules)
    ensures WellFormed(after)
  {
    forall p: Path ensures p in after <==> p in t
                   ensures p in t ==> after[p].Folder? == t[p].Folder?
    {
      assert Midway(At(after, p), At(t, p), p in files, rules);
    }
  }

  lemma AfterRename(t: Tree, after: Tree, work: Path, headers: seq<Path>, sources: seq<Path>, rules: seq<Rule>)
    requires Named(rules)
    requires Lists(t, work + INCLUDE, "h", headers) && Lists(t, work + SOURCE, "cc", sources)
    requires AllMidway(after, t, headers + sources, rules)
    ensures forall p: Path :: !(work <= p) ==> At(after, p) == At(t, p)
    ensures PartlyRenamed(SubTree(after, work), SubTree(t, work), rules)
    ensures after == RenamedFiles(t, headers + sources, rules) ==>
      SubTree(after, work) == RenamedTree(SubTree(t, work), rules)
    ensures work in t ==> work in after
  {
    ListsApart(t, work, headers, sources);
    assert Midway(At(after, work), At(t, work), work in headers + sources, rules);
    forall q: Path ensures Midway(At(SubTree(after, work), q), At(SubTree(t, work), q), IsTarget(q), rules) {
      SubTreeAt(after, work, q);
      SubTreeAt(t, work, q);
      ListedTargets(t, work, headers, sources, q);
      assert Midway(At(after, work + q), At(t, work + q), work + q in headers + sources, rules);
    }
    if after == RenamedFiles(t, headers + sources, rules) {
      forall q: Path ensures At(SubTree(after, work), q) == At(RenamedTree(SubTree(t, work), rules), q) {
        SubTreeAt(after, work, q);
        RenamedFilesAt(t, work, headers, sources, rules, q);
      }
      SameLooks(SubTree(after, work), RenamedTree(SubTree(t, work), rules));
    }
  }

  /** Right after the copy, before any file is renamed. */
  lemma JustCloned(before: Tree, t: Tree, source: Path, work: Path, fncList: seq<string>)
    requires WellFormed(before) && Apart(source, work) && work !in before
    requires CanCopy(before, source, work) && Copied(before, t, source, work)
    ensures SubTree(t, work) == SubTree(before, source)
    ensures work in t
    ensures BuildStep(before, t, source, work, fncList, Interrupted)
  {
    CopyOfAbsent(before, t, source, work);
    assert At(t, work) == CopiedAt(before, source, work, work);
    CounterpartBelow(source, work, work);
    forall p: Path | !(work <= p)
      ensures At(t, p) == At(before, p) || (p <= work && At(before, p) == Absent && At(t, p) == Present(Folder))
    {
      assert At(t, p) == CopiedAt(before, source, work, p);
    }
  }

  lemma JustRenamed(before: Tree, t: Tree, after: Tree, source: Path, work: Path, fncList: seq<string>,
                    headers: seq<Path>, sources: seq<Path>)
    requires work !in before && work in t && SubTree(t, work) == SubTree(before, source)
    requires BuildStep(before, t, source, work, fncList, Interrupted)
    requires Lists(t, work + INCLUDE, "h", headers) && Lists(t, work + SOURCE, "cc", sources)
    requires AllMidway(after, t, headers + sources, RulesOf(fncList))
    ensures BuildStep(before, after, source, work, fncList, Interrupted)
    ensures after == RenamedFiles(t, headers + sources, RulesOf(fncList)) ==>
      BuildStep(before, after, source, work, fncList, Built)
  {
    AfterRename(t, after, work, headers, sources, RulesOf(fncList));
  }

  /** A source tree that a build gets through, on a disk without faults. */
  ghost predicate Buildable(tree: Tree) {
    && [] in tree && tree[[]].Folder?
    && Listable(tree, INCLUDE) && Listable(tree, SOURCE)
    && forall q :: q in tree && IsTarget(q) ==> tree[q].Plain?
  }

  /** The name has a dot behind its first character. */
  predicate Dotted(c: string) {
    exists k :: 0 < k < |c| && c[k] == '.'
  }

  lemma DottedIff(c: string)
    ensures Dotted(c) <==> Extension(c).Some?
  {
    NoExtension(c);
  }

  lemma DirListable(tree: Tree, dir: Path)
    requires dir in tree && tree[dir] == Folder && forall c: string :: dir + [c] in tree ==> Dotted(c)
    ensures Listable(tree, dir)
  {
    forall c | c in Children(tree, dir) ensures Extension(c).Some? {
      DottedIff(c);
    }
  }

  lemma HeadersListable(tree: Tree)
    requires ["include", "libyuv"] in tree && tree[["include", "libyuv"]] == Folder
    requires forall c: string :: ["include", "libyuv", c] in tree ==> exists k :: 0 < k < |c| && c[k] == '.'
    ensures Listable(tree, INCLUDE)
  {
    forall c: string | INCLUDE + [c] in tree ensures Dotted(c) {
      assert ["include", "libyuv", c] == INCLUDE + [c];
    }
    DirListable(tree, INCLUDE);
  }

  lemma SourcesListable(tree: Tree)
    requires ["source"] in tree && tree[["source"]] == Folder
    requires forall c: string :: ["source", c] in tree ==> exists k :: 0 < k < |c| && c[k] == '.'
    ensures Listable(tree, SOURCE)
  {
    forall c: string | SOURCE + [c] in tree ensures Dotted(c) {
      assert ["source", c] == SOURCE + [c];
    }
    DirListable(tree, SOURCE);
  }

  lemma TargetsAreFiles(tree: Tree)
    requires forall base: string :: base != "" && ["include", "libyuv", base + ".h"] in tree ==>
      tree[["include", "libyuv", base + ".h"]].Plain?
    requires forall base: string :: base != "" && ["source", base + ".cc"] in tree ==>
      tree[["source", base + ".cc"]].Plain?
    ensures forall q :: q in tree && IsTarget(q) ==> tree[q].Plain?
  {
    forall q | q in tree && IsTarget(q) ensures tree[q].Plain? {
      TargetIff(q);
    }
  }

  /** What a source tree has to have, written out: its directories of headers and sources,
      in which every entry has a dot behind its first character, and whose headers and
      sources are files. */
  lemma BuildableWhen(tree: Tree)
    requires [] in tree && tree[[]] == Folder
    requires ["include", "libyuv"] in tree && tree[["include", "libyuv"]] == Folder
    requires ["source"] in tree && tree[["source"]] == Folder
    requires forall c: string :: ["include", "libyuv", c] in tree ==> exists k :: 0 < k < |c| && c[k] == '.'
    requires forall c: string :: ["source", c] in tree ==> exists k :: 0 < k < |c| && c[k] == '.'
    requires forall base: string :: base != "" && ["include", "libyuv", base + ".h"] in tree ==>
      tree[["include", "libyuv", base + ".h"]].Plain?
    requires forall base: string :: base != "" && ["source", base + ".cc"] in tree ==>
      tree[["source", base + ".cc"]].Plain?
    ensures Buildable(tree)
  {
    HeadersListable(tree);
    SourcesListable(tree);
    TargetsAreFiles(tree);
  }

  /** A disk on which a build gets through. */
  ghost predicate Sound(t: Tree, source: Path, work: Path) {
    SoundSource(t, source) && CanCreate(t, work)
  }

  /** The same as `BuildableWhen`, for the source tree on the disk. */
  ghost predicate SoundSource(t: Tree, source: Path) {
    && source in t && t[source] == Folder
    && source + ["include", "libyuv"] in t && t[source + ["include", "libyuv"]] == Folder
    && source + ["source"] in t && t[source + ["source"]] == Folder
    && (forall c: string :: source + ["include", "libyuv", c] in t || source + ["source", c] in t ==>
          exists k :: 0 < k < |c| && c[k] == '.')
    && (forall base: string :: base != "" && source + ["include", "libyuv", base + ".h"] in t ==>
          t[source + ["include", "libyuv", base + ".h"]].Plain?)
    && (forall base: string :: base != "" && source + ["source", base + ".cc"] in t ==>
          t[source + ["source", base + ".cc"]].Plain?)
  }

  /** What that asks for, and nothing more: a source directory whose directories of headers
      and sources have entries with a dot behind the first character only, and files for
      headers and sources; and no file on the way to the work tree. */
  lemma SoundWhen(t: Tree, source: Path, work: Path)
    requires source in t && t[source] == Folder
    requires source + ["include", "libyuv"] in t && t[source + ["include", "libyuv"]] == Folder
    requires source + ["source"] in t && t[source + ["source"]] == Folder
    requires forall c: string ::
      source + ["include", "libyuv", c] in t || source + ["source", c] in t ==> exists k :: 0 < k < |c| && c[k] == '.'
    requires forall base: string :: base != "" && source + ["include", "libyuv", base + ".h"] in t ==>
      t[source + ["include", "libyuv", base + ".h"]].Plain?
    requires forall base: string :: base != "" && source + ["source", base + ".cc"] in t ==>
      t[source + ["source", base + ".cc"]].Plain?
    requires forall p :: p in t && p <= work ==> t[p] == Folder
    ensures Sound(t, source, work)
  {
  }

  lemma SoundIsBuildable(t: Tree, source: Path, work: Path)
    requires Sound(t, source, work)
    ensures Buildable(SubTree(t, source)) && CanCreate(t, work)
  {
    forall q: Path ensures At(SubTree(t, source), q) == At(t, source + q) {
      SubTreeAt(t, source, q);
    }
    assert source + [] == source;
    BuildableWhen(SubTree(t, source));
  }

  lemma {:induction false} ListableAt(t: Tree, work: Path, dir: Path)
    requires Listable(SubTree(t, work), dir)
    ensures Listable(t, work + dir)
  {
    SubTreeAt(t, work, dir);
    forall c | c in Children(t, work + dir) ensures Extension(c).Some? {
      assert work + dir + [c] == work + (dir + [c]);
      SubTreeAt(t, work, dir + [c]);
    }
  }

  lemma BuildableIsFolder(t: Tree, dir: Path)
    requires Buildable(SubTree(t, dir))
    ensures dir in t && t[dir].Folder?
  {
    SubTreeAt(t, dir, []);
    assert dir + [] == dir;
  }

  lemma NothingUnder(t: Tree, dir: Path)
    requires WellFormed(t) && dir !in t
    ensures forall p :: p in t ==> !(dir <= p)
  {
    forall p | p in t ensures !(dir <= p) {
      if dir <= p { NothingBelow(t, dir, p); }
    }
  }

  /** A source directory can be cloned whenever no file is on the way to the work tree; the
      folders on the way need not be there. */
  lemma {:induction false} CanClone(before: Tree, source: Path, work: Path)
    requires WellFormed(before) && work !in before
    requires forall p :: p in before && p <= work ==> before[p] == Folder
    requires source in before && before[source].Folder?
    ensures CanCopy(before, source, work)
  {
    NothingUnder(before, work);
  }

  lemma TargetIsPlain(t: Tree, work: Path, headers: seq<Path>, sources: seq<Path>, p: Path)
    requires Lists(t, work + INCLUDE, "h", headers) && Lists(t, work + SOURCE, "cc", sources)
    requires Buildable(SubTree(t, work)) && p in headers + sources && work <= p
    ensures p in t && t[p].Plain?
  {
    var q := p[|work|..];
    assert p == work + q;
    ListedTargets(t, work, headers, sources, q);
    SubTreeAt(t, work, q);
  }

  lemma TargetsArePlain(t: Tree, work: Path, headers: seq<Path>, sources: seq<Path>)
    requires Lists(t, work + INCLUDE, "h", headers) && Lists(t, work + SOURCE, "cc", sources)
    requires Buildable(SubTree(t, work))
    requires forall p: Path :: p in headers + sources ==> work <= p
    ensures AllPlain(t, headers + sources)
  {
    forall p: Path | p in headers + sources ensures p in t && t[p].Plain? {
      TargetIsPlain(t, work, headers, sources, p);
    }
    ListedArePlain(t, headers + sources);
  }

  lemma ListedArePlain(t: Tree, files: seq<Path>)
    requires forall p: Path :: p in files ==> p in t && t[p].Plain?
    ensures AllPlain(t, files)
  {
    forall i | 0 <= i < |files| ensures files[i] in t && t[files[i]].Plain? {
      assert files[i] in files;
    }
  }

  /** Both listings, one after the other; the first one that fails is a panic. */
  method ListTargets(disk: Disk, libyuvDir: Path, faulty: bool)
    returns (ok: bool, includeFiles: seq<Path>, sourceFiles: seq<Path>)
    ensures ok ==> Lists(disk.nodes, libyuvDir + INCLUDE, "h", includeFiles)
    ensures ok ==> Lists(disk.nodes, libyuvDir + SOURCE, "cc", sourceFiles)
    ensures !faulty && Buildable(SubTree(disk.nodes, libyuvDir)) ==> ok
  {
    ghost var t := disk.nodes;
    if Buildable(SubTree(t, libyuvDir)) {
      ListableAt(t, libyuvDir, INCLUDE);
      ListableAt(t, libyuvDir, SOURCE);
    }
    sourceFiles := [];
    ok, includeFiles := ListFiles(disk, libyuvDir + INCLUDE, "h", faulty);
    if ok {
      ok, sourceFiles := ListFiles(disk, libyuvDir + SOURCE, "cc", faulty);
    }
  }

  /** The part of `main` that works on the tree. A panic or a kill after the copy leaves
      the work tree where it is. */
  method Build(disk: Disk, source: Path, libyuvDir: Path, fncList: seq<string>, faulty: bool) returns (outcome: Outcome)
    requires WellFormed(disk.nodes) && Apart(source, libyuvDir)
    requires AllSymbols(RulesOf(fncList))
    modifies disk
    ensures WellFormed(disk.nodes)
    ensures BuildStep(old(disk.nodes), disk.nodes, source, libyuvDir, fncList, outcome)
    ensures !faulty && Buildable(SubTree(old(disk.nodes), source)) && CanCreate(old(disk.nodes), libyuvDir) ==>
      outcome.Built? || outcome.Skipped?
    ensures !faulty && Sound(old(disk.nodes), source, libyuvDir) ==> outcome.Built? || outcome.Skipped?
  {
    if Sound(disk.nodes, source, libyuvDir) { SoundIsBuildable(disk.nodes, source, libyuvDir); }
    ghost var before := disk.nodes;
    ghost var sound :=
      !faulty && Buildable(SubTree(before, source)) && CanCreate(before, libyuvDir) && libyuvDir !in before;
    if sound {
      BuildableIsFolder(before, source);
      CanClone(before, source, libyuvDir);
    }
    var cloned := CloneIfNeeded(disk, source, libyuvDir, faulty);
    if cloned.Panicked? {
      return CopyFailed;
    }
    if cloned.Killed? {
      return Outcome.Killed;
    }
    outcome := if cloned.Cloned? then Interrupted else Skipped;
    ghost var t := disk.nodes;
    if cloned.Cloned? { JustCloned(before, t, source, libyuvDir, fncList); }
    assert BuildStep(before, t, source, libyuvDir, fncList, outcome);

    var ok, includeFiles, sourceFiles := ListTargets(disk, libyuvDir, faulty);
    if !ok {
      return;
    }
    if cloned.Cloned? {
      ListsApart(t, libyuvDir, includeFiles, sourceFiles);
      if sound { TargetsArePlain(t, libyuvDir, includeFiles, sourceFiles); }
      ok := RenameSymbols(disk, fncList, includeFiles, sourceFiles, faulty);
      JustRenamed(before, t, disk.nodes, source, libyuvDir, fncList, includeFiles, sourceFiles);
      RenameKeepsForm(t, disk.nodes, includeFiles + sourceFiles, RulesOf(fncList));
      if ok {
        outcome := Built;
      }
    }
  }
}
