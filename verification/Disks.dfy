/** The file system the build script works on, and its recursive copy of a directory. */
module Disks {

  type Path = seq<string>

  datatype Entry = Folder | Plain(content: string)

  datatype Look = Absent | Present(entry: Entry)

  type Tree = map<Path, Entry>

  function At(t: Tree, p: Path): Look {
    if p in t then Present(t[p]) else Absent
  }

  /** Below `dir`, every entry stands in a folder. */
  ghost predicate Rooted(t: Tree, dir: Path) {
    forall p :: p in t && dir < p ==> p[..|p| - 1] in t && t[p[..|p| - 1]].Folder?
  }

  /** The whole disk is well formed: every entry stands in a folder. */
  ghost predicate WellFormed(t: Tree) {
    [] in t && t[[]].Folder? && Rooted(t, [])
  }

  lemma StandsIn(t: Tree, p: Path, e: Entry, q: Path)
    requires WellFormed(t) && p != [] && p[..|p| - 1] in t && t[p[..|p| - 1]].Folder?
    requires p in t ==> t[p].Plain?
    requires q in t[p := e] && [] < q
    ensures q[..|q| - 1] in t && t[q[..|q| - 1]].Folder? && q[..|q| - 1] != p
  {
    if q != p { assert q in t; }
  }

  lemma AddEntry(t: Tree, p: Path, e: Entry)
    requires WellFormed(t) && p != [] && p[..|p| - 1] in t && t[p[..|p| - 1]].Folder?
    requires p in t ==> t[p].Plain?
    ensures WellFormed(t[p := e])
  {
    forall q | q in t[p := e] && [] < q
      ensures q[..|q| - 1] in t[p := e] && t[p := e][q[..|q| - 1]].Folder?
    {
      StandsIn(t, p, e, q);
    }
  }

  predicate Apart(a: Path, b: Path) {
    !(a <= b) && !(b <= a)
  }

  /** The path below `src` that stands where `p` stands below `dst`. */
  function Counterpart(src: Path, dst: Path, p: Path): Path
    requires dst <= p
  {
    src + p[|dst|..]
  }

  /** Copying does not write to what it still has to read: the destination is not below the
      source, and nothing of the source has its place in the source. */
  ghost predicate Safe(t: Tree, src: Path, dst: Path) {
    !(src <= dst) && forall p :: p in t && src <= p ==> !(src <= Counterpart(dst, src, p))
  }

  lemma ApartIsSafe(t: Tree, src: Path, dst: Path)
    requires Apart(src, dst)
    ensures Safe(t, src, dst)
  {
    forall p | p in t && src <= p ensures !(src <= Counterpart(dst, src, p)) {
      CounterpartBelow(dst, src, p);
      ApartBelow(dst, src, Counterpart(dst, src, p));
    }
  }

  // ---------------------------------------------------------------------------
  // What a copy is
  // ---------------------------------------------------------------------------

  /** What stands at `p` after `src` is laid over `dst`: the source where it has an entry,
      what was there before where it has none, and the folders that lead to `dst`. */
  function CopiedAt(t: Tree, src: Path, dst: Path, p: Path): Look {
    if dst <= p && Counterpart(src, dst, p) in t then Present(t[Counterpart(src, dst, p)])
    else if p <= dst && p !in t then Present(Folder)
    else At(t, p)
  }

  ghost predicate Copied(before: Tree, after: Tree, src: Path, dst: Path) {
    forall p: Path :: At(after, p) == CopiedAt(before, src, dst, p)
  }

  /** A folder would have to replace a file, or a file a folder. */
  predicate Clash(t: Tree, src: Path, dst: Path, p: Path) {
    dst <= p && p in t && Counterpart(src, dst, p) in t && t[p].Folder? != t[Counterpart(src, dst, p)].Folder?
  }

  ghost predicate CanCreate(t: Tree, dir: Path) {
    forall p :: p in t && p <= dir ==> t[p].Folder?
  }

  ghost predicate CanCopy(t: Tree, src: Path, dst: Path) {
    && src in t && t[src].Folder?
    && CanCreate(t, dst)
    && forall p :: p in t ==> !Clash(t, src, dst, p)
  }

  /** What even a failed copy leaves alone: everything that is not below `dst`, but for
      folders that lead to it. */
  ghost predicate OnlyBelow(before: Tree, after: Tree, dst: Path) {
    forall p: Path :: !(dst <= p) ==>
      || At(after, p) == At(before, p)
      || (p <= dst && At(before, p) == Absent && At(after, p) == Present(Folder))
  }

  /** What a write of `e` leaves when it is stopped somewhere: the first part of a file. */
  predicate CutOf(look: Look, e: Entry) {
    && look.Present? && look.entry.Folder? == e.Folder?
    && (e.Plain? ==> look.entry.content <= e.content)
  }

  /** What a copy leaves below `dst` when it is stopped somewhere: at each path what was
      there, or what the source has there, a file possibly cut. */
  ghost predicate Begun(before: Tree, after: Tree, src: Path, dst: Path) {
    forall p: Path :: dst <= p ==>
      || At(after, p) == At(before, p)
      || (p == dst && At(after, p) == Present(Folder))
      || (Counterpart(src, dst, p) in before && CutOf(At(after, p), before[Counterpart(src, dst, p)]))
  }

  /** Half-way through: the children of `src` in `todo` are still to be copied. */
  function PartAt(t: Tree, src: Path, dst: Path, todo: set<string>, p: Path): Look {
    if dst < p && p[|dst|] in todo then At(t, p) else CopiedAt(t, src, dst, p)
  }

  ghost predicate PartCopied(before: Tree, after: Tree, src: Path, dst: Path, todo: set<string>) {
    forall p: Path :: At(after, p) == PartAt(before, src, dst, todo, p)
  }

  function Children(t: Tree, dir: Path): (names: set<string>)
    ensures forall c :: c in names <==> dir + [c] in t
  {
    var names := set p | p in t && |p| == |dir| + 1 && dir < p :: p[|dir|];
    assert forall c :: dir + [c] in t ==> (dir + [c])[|dir|] in names;
    assert forall p :: p in t && |p| == |dir| + 1 && dir < p ==> p == dir + [p[|dir|]];
    names
  }

  function Descendants(t: Tree, dir: Path): set<Path> {
    set p | p in t && dir < p
  }

  // ---------------------------------------------------------------------------
  // The same, path by path
  // ---------------------------------------------------------------------------

  lemma WellFormedIff(t: Tree)
    ensures WellFormed(t) <==>
      && [] in t && t[[]] == Folder
      && forall p :: p in t && p != [] ==> p[..|p| - 1] in t && t[p[..|p| - 1]] == Folder
  {
    forall p | p in t ensures p != [] <==> [] < p {
    }
  }

  lemma ApartIff(a: Path, b: Path)
    ensures Apart(a, b) <==> exists k :: 0 <= k < |a| && k < |b| && a[k] != b[k]
  {
  }

  lemma SafeIff(t: Tree, src: Path, dst: Path)
    ensures Safe(t, src, dst) <==> !(src <= dst) && forall q: Path :: src + q in t ==> !(src <= dst + q)
  {
    forall q: Path ensures src <= src + q && Counterpart(dst, src, src + q) == dst + q {
      assert (src + q)[|src|..] == q;
    }
    forall p | p in t && src <= p ensures p == src + p[|src|..] && Counterpart(dst, src, p) == dst + p[|src|..] {
    }
  }

  lemma CanCopyIff(t: Tree, src: Path, dst: Path)
    ensures CanCopy(t, src, dst) <==>
      && src in t && t[src] == Folder
      && (forall p :: p in t && p <= dst ==> t[p] == Folder)
      && forall q: Path :: src + q in t && dst + q in t ==> t[src + q].Folder? == t[dst + q].Folder?
  {
    forall q: Path ensures dst <= dst + q && Counterpart(src, dst, dst + q) == src + q {
      assert (dst + q)[|dst|..] == q;
    }
    forall q: Path ensures Clash(t, src, dst, dst + q) <==>
                           src + q in t && dst + q in t && t[src + q].Folder? != t[dst + q].Folder? {
    }
    forall p: Path | dst <= p ensures p == dst + p[|dst|..] {
    }
  }

  /** What the source has is at the destination; what else was there still is. */
  lemma CopiedBelow(before: Tree, after: Tree, src: Path, dst: Path, q: Path)
    requires Copied(before, after, src, dst) && src in before
    ensures src + q in before ==> dst + q in after && after[dst + q] == before[src + q]
    ensures src + q !in before ==> (dst + q in after <==> dst + q in before)
    ensures src + q !in before && dst + q in before ==> after[dst + q] == before[dst + q]
  {
    assert (dst + q)[|dst|..] == q;
    assert At(after, dst + q) == CopiedAt(before, src, dst, dst + q);
    if q == [] { assert src + q == src; }
  }

  /** Outside the destination everything is as it was, but for new folders on the way. */
  lemma CopiedBeside(before: Tree, after: Tree, src: Path, dst: Path, p: Path)
    requires Copied(before, after, src, dst) && !(dst <= p)
    ensures p in before ==> p in after && after[p] == before[p]
    ensures p !in before ==> (p in after <==> p < dst)
    ensures p !in before && p in after ==> after[p] == Folder
  {
    assert At(after, p) == CopiedAt(before, src, dst, p);
  }

  lemma OnlyBelowMeans(before: Tree, after: Tree, dst: Path, p: Path)
    requires OnlyBelow(before, after, dst) && !(dst <= p)
    ensures p in before ==> p in after && after[p] == before[p]
    ensures p !in before && p in after ==> p < dst && after[p] == Folder
  {
    assert At(after, p) == At(before, p)
        || (p <= dst && At(before, p) == Absent && At(after, p) == Present(Folder));
  }

  /** A stopped copy has not lost a path, and what it has written is from the source. */
  lemma BegunMeans(before: Tree, after: Tree, src: Path, dst: Path, q: Path)
    requires Begun(before, after, src, dst)
    ensures dst + q in before ==> dst + q in after
    ensures dst + q in after ==>
      || (dst + q in before && after[dst + q] == before[dst + q])
      || (q == [] && after[dst + q] == Folder)
      || (src + q in before && before[src + q] == Folder && after[dst + q] == Folder)
      || (src + q in before && before[src + q].Plain? && after[dst + q].Plain?
          && after[dst + q].content <= before[src + q].content)
  {
    assert (dst + q)[|dst|..] == q;
    assert dst <= dst + q && Counterpart(src, dst, dst + q) == src + q;
    if q == [] { assert dst + q == dst; }
    if dst + q == dst { assert q == []; }
  }

  // ---------------------------------------------------------------------------
  // Steps of the copy
  // ---------------------------------------------------------------------------

  lemma ChildCounterpart(src: Path, dst: Path, c: string, p: Path)
    requires dst + [c] <= p
    ensures dst < p && p[|dst|] == c
    ensures Counterpart(src + [c], dst + [c], p) == Counterpart(src, dst, p)
    ensures src + [c] <= Counterpart(src, dst, p)
  {
    assert p[|dst|..] == [c] + p[|dst| + 1..];
  }

  lemma BelowChild(dst: Path, p: Path)
    requires dst < p
    ensures dst + [p[|dst|]] <= p
  {
  }

  lemma CounterpartBelow(src: Path, dst: Path, p: Path)
    requires dst <= p
    ensures src <= Counterpart(src, dst, p)
    ensures dst < p ==> src < Counterpart(src, dst, p) && Counterpart(src, dst, p)[|src|] == p[|dst|]
    ensures p == dst ==> Counterpart(src, dst, p) == src
  {
  }

  /** Paths below the source are never touched. */
  lemma SourceStays(before: Tree, after: Tree, src: Path, dst: Path, todo: set<string>)
    requires Safe(before, src, dst) && PartCopied(before, after, src, dst, todo)
    ensures forall p: Path :: src <= p ==> At(after, p) == At(before, p)
  {
    forall p: Path | src <= p ensures At(after, p) == At(before, p) {
      assert At(after, p) == PartAt(before, src, dst, todo, p);
      if dst <= p { NotCopiedOver(before, src, dst, p); }
    }
  }

  lemma NotCopiedOver(t: Tree, src: Path, dst: Path, p: Path)
    requires Safe(t, src, dst) && src <= p && dst <= p
    ensures Counterpart(src, dst, p) !in t
  {
    var q := Counterpart(src, dst, p);
    assert src <= q && Counterpart(dst, src, q) == p;
  }

  lemma ApartBelow(a: Path, b: Path, p: Path)
    requires Apart(a, b) && a <= p
    ensures !(b <= p) && !(p <= b)
  {
  }

  /** Where the source has a descendant, it has the child that leads there. */
  lemma {:induction false} AncestorThere(t: Tree, dir: Path, p: Path)
    requires Rooted(t, dir) && p in t && dir < p
    ensures p[|dir|] in Children(t, dir)
    ensures p != dir + [p[|dir|]] ==> t[dir + [p[|dir|]]].Folder?
    decreases |p|
  {
    var up := p[..|p| - 1];
    if |p| == |dir| + 1 {
      assert p == dir + [p[|dir|]];
    } else {
      assert dir < up && up[|dir|] == p[|dir|];
      AncestorThere(t, dir, up);
    }
  }

  /** After the folders are made, nothing of the source has been copied yet. */
  lemma {:induction false} StartsPart(before: Tree, after: Tree, src: Path, dst: Path)
    requires Rooted(before, src) && src in before && before[src].Folder? && CanCreate(before, dst)
    requires forall p: Path :: At(after, p) == if p <= dst && p !in before then Present(Folder) else At(before, p)
    ensures PartCopied(before, after, src, dst, Children(before, src))
  {
    forall p: Path ensures At(after, p) == PartAt(before, src, dst, Children(before, src), p) {
      if dst <= p {
        CounterpartBelow(src, dst, p);
        if dst < p && Counterpart(src, dst, p) in before {
          AncestorThere(before, src, Counterpart(src, dst, p));
        }
      }
    }
  }

  /** Copying one file. */
  lemma FileStep(before: Tree, now: Tree, src: Path, dst: Path, todo: set<string>, c: string)
    requires PartCopied(before, now, src, dst, todo) && Rooted(before, src)
    requires c in todo && src + [c] in before && before[src + [c]].Plain?
    ensures PartCopied(before, now[dst + [c] := before[src + [c]]], src, dst, todo - {c})
  {
    var after := now[dst + [c] := before[src + [c]]];
    forall p: Path ensures At(after, p) == PartAt(before, src, dst, todo - {c}, p) {
      assert At(now, p) == PartAt(before, src, dst, todo, p);
      if dst < p && p[|dst|] == c {
        BelowChild(dst, p);
        ChildCounterpart(src, dst, c, p);
        var q := Counterpart(src, dst, p);
        if p == dst + [c] {
          assert q == src + [c];
        } else if q in before {
          CounterpartBelow(src, dst, p);
          assert |q| != |src + [c]|;
          AncestorThere(before, src, q);
        }
      }
    }
  }

  /** Copying one sub-directory. */
  lemma FolderStep(before: Tree, now: Tree, after: Tree, src: Path, dst: Path, todo: set<string>, c: string)
    requires PartCopied(before, now, src, dst, todo) && src in before && Safe(before, src, dst)
    requires c in todo && src + [c] in before
    requires Copied(now, after, src + [c], dst + [c])
    ensures PartCopied(before, after, src, dst, todo - {c})
  {
    SourceStays(before, now, src, dst, todo);
    forall p: Path ensures At(after, p) == PartAt(before, src, dst, todo - {c}, p) {
      assert At(now, p) == PartAt(before, src, dst, todo, p);
      assert At(after, p) == CopiedAt(now, src + [c], dst + [c], p);
      if dst + [c] <= p {
        ChildCounterpart(src, dst, c, p);
        var q := Counterpart(src, dst, p);
        CounterpartBelow(src, dst, p);
        assert At(now, q) == At(before, q);
        if p == dst + [c] { assert q == src + [c]; }
      } else {
        if dst < p && p[|dst|] == c { BelowChild(dst, p); }
        if p <= dst + [c] {
          assert p <= dst by { assert |p| <= |dst|; assert p == (dst + [c])[..|p|]; }
        }
      }
    }
  }

  // ---------------------------------------------------------------------------
  // When a copy can be made
  // ---------------------------------------------------------------------------

  /** No clash below the children of `src` that are not in `todo`. */
  ghost predicate NoClashYet(t: Tree, src: Path, dst: Path, todo: set<string>) {
    forall p :: p in t && dst < p && p[|dst|] !in todo ==> !Clash(t, src, dst, p)
  }

  ghost predicate NoClashIn(t: Tree, src: Path, dst: Path, c: string) {
    forall p :: p in t && dst < p && p[|dst|] == c ==> !Clash(t, src, dst, p)
  }

  lemma SameClash(before: Tree, now: Tree, src: Path, dst: Path, todo: set<string>, c: string, p: Path)
    requires PartCopied(before, now, src, dst, todo) && src in before && Safe(before, src, dst)
    requires c in todo && dst + [c] <= p
    ensures At(now, p) == At(before, p)
    ensures Clash(now, src + [c], dst + [c], p) <==> Clash(before, src, dst, p)
  {
    SourceStays(before, now, src, dst, todo);
    ChildCounterpart(src, dst, c, p);
    CounterpartBelow(src, dst, p);
    assert At(now, p) == PartAt(before, src, dst, todo, p);
    assert At(now, Counterpart(src, dst, p)) == At(before, Counterpart(src, dst, p));
  }

  lemma LeadsToChild(dst: Path, c: string, p: Path)
    requires p <= dst + [c]
    ensures p <= dst || p == dst + [c]
  {
    if |p| <= |dst| { assert p == (dst + [c])[..|p|]; }
  }

  /** A sub-directory can be copied exactly when nothing below it clashes. */
  lemma ChildCanCopy(before: Tree, now: Tree, src: Path, dst: Path, todo: set<string>, c: string)
    requires PartCopied(before, now, src, dst, todo) && src in before && Safe(before, src, dst)
    requires c in todo && src + [c] in before && before[src + [c]].Folder?
    requires CanCreate(before, dst) && before[src].Folder?
    requires NoClashIn(before, src, dst, c)
    ensures CanCopy(now, src + [c], dst + [c])
  {
    SourceStays(before, now, src, dst, todo);
    assert At(now, src + [c]) == At(before, src + [c]);
    forall p | p in now && p <= dst + [c] ensures now[p].Folder? {
      LeadsToChild(dst, c, p);
      assert At(now, p) == PartAt(before, src, dst, todo, p);
      if p == dst + [c] {
        assert Counterpart(src, dst, p) == src + [c];
        assert !Clash(before, src, dst, p);
      } else if p == dst {
        CounterpartBelow(src, dst, p);
      }
    }
    forall p | p in now ensures !Clash(now, src + [c], dst + [c], p) {
      if dst + [c] <= p { SameClash(before, now, src, dst, todo, c, p); }
    }
  }

  lemma ChildCannotCopy(before: Tree, now: Tree, src: Path, dst: Path, todo: set<string>, c: string)
    requires PartCopied(before, now, src, dst, todo) && src in before && Safe(before, src, dst)
    requires c in todo && CanCopy(now, src + [c], dst + [c])
    ensures NoClashIn(before, src, dst, c)
  {
    forall p | p in before && dst < p && p[|dst|] == c ensures !Clash(before, src, dst, p) {
      BelowChild(dst, p);
      SameClash(before, now, src, dst, todo, c, p);
    }
  }

  /** A file can be copied exactly when no folder stands in its place. */
  lemma FileCanCopy(before: Tree, now: Tree, src: Path, dst: Path, todo: set<string>, c: string)
    requires PartCopied(before, now, src, dst, todo) && Rooted(before, src) && src in before && Safe(before, src, dst)
    requires c in todo && src + [c] in before && before[src + [c]].Plain?
    ensures At(now, dst + [c]) == Present(Folder) <==> !NoClashIn(before, src, dst, c)
  {
    var here := dst + [c];
    assert Counterpart(src, dst, here) == src + [c];
    assert At(now, here) == PartAt(before, src, dst, todo, here);
    forall p | p in before && dst < p && p[|dst|] == c && p != here ensures !Clash(before, src, dst, p) {
      CounterpartBelow(src, dst, p);
      var q := Counterpart(src, dst, p);
      if q in before {
        assert |q| != |src + [c]|;
        AncestorThere(before, src, q);
      }
    }
  }

  /** A copy below `dst/c` stays below `dst`. */
  lemma OnlyBelowChild(before: Tree, now: Tree, after: Tree, src: Path, dst: Path, todo: set<string>, c: string)
    requires PartCopied(before, now, src, dst, todo) && OnlyBelow(before, now, dst)
    requires src in before && before[src].Folder?
    requires OnlyBelow(now, after, dst + [c])
    ensures OnlyBelow(before, after, dst)
  {
    forall p: Path | !(dst <= p)
      ensures At(after, p) == At(before, p)
           || (p <= dst && At(before, p) == Absent && At(after, p) == Present(Folder))
    {
      assert !(dst + [c] <= p);
      if p <= dst + [c] { LeadsToChild(dst, c, p); }
      assert At(now, p) == PartAt(before, src, dst, todo, p);
    }
  }

  lemma PartIsBegun(before: Tree, now: Tree, src: Path, dst: Path, todo: set<string>)
    requires PartCopied(before, now, src, dst, todo)
    ensures Begun(before, now, src, dst)
  {
    forall p: Path | dst <= p
      ensures || At(now, p) == At(before, p)
              || (p == dst && At(now, p) == Present(Folder))
              || (Counterpart(src, dst, p) in before && CutOf(At(now, p), before[Counterpart(src, dst, p)]))
    {
      assert At(now, p) == PartAt(before, src, dst, todo, p);
    }
  }

  /** A copy of a sub-directory that is stopped leaves a copy that is stopped. */
  lemma BegunChild(before: Tree, now: Tree, after: Tree, src: Path, dst: Path, todo: set<string>, c: string)
    requires PartCopied(before, now, src, dst, todo) && Safe(before, src, dst)
    requires c in todo && src + [c] in before && before[src + [c]].Folder?
    requires OnlyBelow(now, after, dst + [c]) && Begun(now, after, src + [c], dst + [c])
    ensures Begun(before, after, src, dst)
  {
    PartIsBegun(before, now, src, dst, todo);
    SourceStays(before, now, src, dst, todo);
    forall p: Path | dst <= p
      ensures || At(after, p) == At(before, p)
              || (p == dst && At(after, p) == Present(Folder))
              || (Counterpart(src, dst, p) in before && CutOf(At(after, p), before[Counterpart(src, dst, p)]))
    {
      if dst + [c] <= p {
        ChildCounterpart(src, dst, c, p);
        assert At(now, p) == PartAt(before, src, dst, todo, p);
        assert At(now, Counterpart(src, dst, p)) == At(before, Counterpart(src, dst, p));
        if p == dst + [c] { assert Counterpart(src, dst, p) == src + [c]; }
      } else if p <= dst + [c] {
        LeadsToChild(dst, c, p);
      }
    }
  }

  /** So does the copy of a file. */
  lemma BegunFile(before: Tree, now: Tree, src: Path, dst: Path, todo: set<string>, c: string, content: string)
    requires PartCopied(before, now, src, dst, todo)
    requires src + [c] in before && before[src + [c]].Plain? && content <= before[src + [c]].content
    ensures Begun(before, now[dst + [c] := Plain(content)], src, dst)
  {
    PartIsBegun(before, now, src, dst, todo);
    assert Counterpart(src, dst, dst + [c]) == src + [c];
  }

  lemma NoClashMore(t: Tree, src: Path, dst: Path, todo: set<string>, c: string)
    requires NoClashYet(t, src, dst, todo) && NoClashIn(t, src, dst, c)
    ensures NoClashYet(t, src, dst, todo - {c})
  {
  }

  /** One turn of the loop, for a sub-directory. */
  lemma FolderTurn(before: Tree, now: Tree, after: Tree, src: Path, dst: Path, todo: set<string>, c: string, ok: bool)
    requires PartCopied(before, now, src, dst, todo) && NoClashYet(before, src, dst, todo)
    requires OnlyBelow(before, now, dst)
    requires src in before && before[src].Folder? && Safe(before, src, dst) && CanCreate(before, dst)
    requires c in todo && src + [c] in before && before[src + [c]].Folder?
    requires ok ==> CanCopy(now, src + [c], dst + [c]) && Copied(now, after, src + [c], dst + [c])
    requires OnlyBelow(now, after, dst + [c]) && Begun(now, after, src + [c], dst + [c])
    ensures OnlyBelow(before, after, dst) && Begun(before, after, src, dst)
    ensures ok ==> PartCopied(before, after, src, dst, todo - {c}) && NoClashYet(before, src, dst, todo - {c})
    ensures !CanCopy(now, src + [c], dst + [c]) ==> !CanCopy(before, src, dst)
  {
    OnlyBelowChild(before, now, after, src, dst, todo, c);
    BegunChild(before, now, after, src, dst, todo, c);
    if ok {
      FolderStep(before, now, after, src, dst, todo, c);
      ChildCannotCopy(before, now, src, dst, todo, c);
      NoClashMore(before, src, dst, todo, c);
    }
    if NoClashIn(before, src, dst, c) {
      ChildCanCopy(before, now, src, dst, todo, c);
    }
  }

  /** One turn of the loop, for a file. */
  lemma FileTurn(before: Tree, now: Tree, after: Tree, src: Path, dst: Path, todo: set<string>, c: string, ok: bool)
    requires PartCopied(before, now, src, dst, todo) && NoClashYet(before, src, dst, todo)
    requires OnlyBelow(before, now, dst)
    requires src in before && before[src].Folder? && Safe(before, src, dst) && Rooted(before, src)
    requires c in todo && src + [c] in before && before[src + [c]].Plain?
    requires ok ==> after == now[dst + [c] := before[src + [c]]]
    requires !ok ==> after == now || exists n: nat ::
      n <= |before[src + [c]].content| && after == now[dst + [c] := Plain(before[src + [c]].content[..n])]
    requires ok ==> At(now, dst + [c]) != Present(Folder)
    ensures OnlyBelow(before, after, dst) && Begun(before, after, src, dst)
    ensures ok ==> PartCopied(before, after, src, dst, todo - {c}) && NoClashYet(before, src, dst, todo - {c})
    ensures At(now, dst + [c]) == Present(Folder) ==> !CanCopy(before, src, dst)
  {
    FileCanCopy(before, now, src, dst, todo, c);
    if ok {
      FileStep(before, now, src, dst, todo, c);
      PartIsBegun(before, after, src, dst, todo - {c});
      NoClashMore(before, src, dst, todo, c);
    } else if after == now {
      PartIsBegun(before, now, src, dst, todo);
    } else {
      var content := before[src + [c]].content;
      var n: nat :| n <= |content| && after == now[dst + [c] := Plain(content[..n])];
      BegunFile(before, now, src, dst, todo, c, content[..n]);
    }
  }

  lemma NoneLeft(before: Tree, after: Tree, src: Path, dst: Path)
    requires PartCopied(before, after, src, dst, {}) && NoClashYet(before, src, dst, {})
    requires src in before && before[src].Folder? && CanCreate(before, dst)
    ensures Copied(before, after, src, dst) && CanCopy(before, src, dst)
  {
    forall p: Path ensures At(after, p) == CopiedAt(before, src, dst, p) {
      assert At(after, p) == PartAt(before, src, dst, {}, p);
    }
    forall p | p in before ensures !Clash(before, src, dst, p) {
      if p == dst { CounterpartBelow(src, dst, p); }
    }
  }

  /** The copy of a sub-directory has less to do. */
  lemma Descends(before: Tree, now: Tree, src: Path, dst: Path, todo: set<string>, c: string)
    requires PartCopied(before, now, src, dst, todo) && src in before && Safe(before, src, dst)
    requires src + [c] in before && Rooted(before, src)
    ensures At(now, src + [c]) == At(before, src + [c])
    ensures Descendants(now, src + [c]) < Descendants(before, src)
    ensures Rooted(now, src + [c]) && Safe(now, src + [c], dst + [c])
  {
    SourceStays(before, now, src, dst, todo);
    assert src < src + [c];
    assert src + [c] in Descendants(before, src) && src + [c] !in Descendants(now, src + [c]);
    forall p | p in Descendants(now, src + [c]) ensures p in Descendants(before, src) {
      assert At(now, p) == At(before, p);
    }
    forall p | p in now && src + [c] < p ensures p[..|p| - 1] in now && now[p[..|p| - 1]].Folder? {
      assert At(now, p) == At(before, p) && At(now, p[..|p| - 1]) == At(before, p[..|p| - 1]);
    }
    ChildIsSafe(before, now, src, dst, c);
  }

  lemma ChildIsSafe(before: Tree, now: Tree, src: Path, dst: Path, c: string)
    requires Safe(before, src, dst) && forall p: Path :: src <= p ==> At(now, p) == At(before, p)
    ensures Safe(now, src + [c], dst + [c])
  {
    assert src <= src + [c];
    if src + [c] <= dst + [c] { LeadsToChild(dst, c, src + [c]); }
    forall p | p in now && src + [c] <= p ensures !(src + [c] <= Counterpart(dst + [c], src + [c], p)) {
      ChildCounterpart(dst, src, c, p);
      assert At(now, p) == At(before, p);
    }
  }

  lemma SameSource(before: Tree, after: Tree, src: Path, dst: Path)
    requires Safe(before, src, dst)
    requires forall p: Path :: At(after, p) == if p <= dst && p !in before then Present(Folder) else At(before, p)
    ensures At(after, src) == At(before, src)
    ensures Children(after, src) == Children(before, src)
  {
    forall c ensures src + [c] in after <==> src + [c] in before {
      assert src <= src + [c];
      assert At(after, src + [c]) == At(before, src + [c]);
    }
  }

  lemma AddNext(t: Tree, dir: Path, k: nat)
    requires WellFormed(t) && k <= |dir| && dir[..k] !in t
    requires forall p: Path :: p <= dir && |p| < k ==> At(t, p) == Present(Folder)
    ensures WellFormed(t[dir[..k] := Folder])
  {
    var here := dir[..k];
    assert At(t, here[..k - 1]) == Present(Folder);
    AddEntry(t, here, Folder);
  }

  /** The destination is a folder by now, so a file can be put into it. */
  lemma FileKeepsForm(before: Tree, now: Tree, after: Tree, src: Path, dst: Path, todo: set<string>, c: string)
    requires PartCopied(before, now, src, dst, todo) && src in before && before[src].Folder? && WellFormed(now)
    requires after == now || exists content ::
      At(now, dst + [c]) != Present(Folder) && after == now[dst + [c] := Plain(content)]
    ensures WellFormed(after)
  {
    assert At(now, dst) == PartAt(before, src, dst, todo, dst);
    CounterpartBelow(src, dst, dst);
    assert (dst + [c])[..|dst + [c]| - 1] == dst;
    if after != now {
      var content :| At(now, dst + [c]) != Present(Folder) && after == now[dst + [c] := Plain(content)];
      AddEntry(now, dst + [c], Plain(content));
    }
  }

  // ---------------------------------------------------------------------------
  // The disk
  // ---------------------------------------------------------------------------

  class Disk {
    var nodes: Tree

    /** Creates a directory and the folders that lead to it. Any operation of a faulty
        disk may fail. */
    method CreateDirAll(dir: Path, faulty: bool) returns (ok: bool)
      modifies this
      ensures ok ==> CanCreate(old(nodes), dir)
      ensures !faulty ==> (ok <==> CanCreate(old(nodes), dir))
      ensures ok ==> forall p: Path ::
        At(nodes, p) == if p <= dir && p !in old(nodes) then Present(Folder) else At(old(nodes), p)
      ensures forall p: Path ::
        || At(nodes, p) == At(old(nodes), p)
        || (p <= dir && p !in old(nodes) && At(nodes, p) == Present(Folder))
      ensures WellFormed(old(nodes)) ==> WellFormed(nodes)
    {
      for k := 0 to |dir| + 1
        invariant forall p :: p in old(nodes) && p <= dir && |p| < k ==> old(nodes)[p].Folder?
        invariant forall p: Path ::
          At(nodes, p) == if p <= dir && |p| < k && p !in old(nodes) then Present(Folder) else At(old(nodes), p)
        invariant WellFormed(old(nodes)) ==> WellFormed(nodes)
      {
        var fault: bool := *;
        var here := dir[..k];
        assert forall p: Path :: p <= dir && |p| == k ==> p == here;
        if faulty && fault {
          return false;
        }
        if here !in nodes {
          if WellFormed(nodes) { AddNext(nodes, dir, k); }
          nodes := nodes[here := Folder];
        } else if nodes[here].Plain? {
          return false;
        }
      }
      ok := true;
    }

    /** The names in a directory. */
    method ReadDir(dir: Path, faulty: bool) returns (ok: bool, names: set<string>)
      ensures ok ==> dir in nodes && nodes[dir].Folder? && names == Children(nodes, dir)
      ensures !faulty ==> (ok <==> dir in nodes && nodes[dir].Folder?)
    {
      var fault: bool := *;
      ok := dir in nodes && nodes[dir].Folder? && !(faulty && fault);
      names := Children(nodes, dir);
    }

    /** Copies one file over what is at the destination, unless that is a folder. A fault
        may leave the first part of the file. */
    method CopyFile(source: Path, destination: Path, faulty: bool) returns (ok: bool)
      requires source in nodes && nodes[source].Plain?
      modifies this
      ensures !faulty ==> (ok <==> At(old(nodes), destination) != Present(Folder))
      ensures ok ==> At(old(nodes), destination) != Present(Folder)
      ensures ok ==> nodes == old(nodes)[destination := old(nodes)[source]]
      ensures !ok ==> nodes == old(nodes) || exists n: nat ::
        n <= |old(nodes)[source].content| && nodes == old(nodes)[destination := Plain(old(nodes)[source].content[..n])]
      ensures nodes == old(nodes) || exists content ::
        At(old(nodes), destination) != Present(Folder) && nodes == old(nodes)[destination := Plain(content)]
    {
      var content := nodes[source].content;
      var fault: bool := *;
      var written: int := *;
      if destination in nodes && nodes[destination].Folder? {
        return false;
      }
      if faulty && fault {
        if 0 <= written <= |content| {
          nodes := nodes[destination := Plain(content[..written])];
        }
        return false;
      }
      nodes := nodes[destination := nodes[source]];
      ok := true;
    }

    /** The recursive copy. On success the source has been laid over the destination, entry
        by entry; on failure nothing outside the destination has been lost, and below it
        there is what was there or the start of what the source has; and without faults of
        the disk it succeeds exactly when no file is in the way of a folder or a folder in
        the way of a file. */
    method CopyDir(source: Path, destination: Path, faulty: bool) returns (ok: bool)
      requires Safe(nodes, source, destination) && Rooted(nodes, source)
      modifies this
      ensures ok ==> CanCopy(old(nodes), source, destination)
      ensures !faulty ==> (ok <==> CanCopy(old(nodes), source, destination))
      ensures ok ==> Copied(old(nodes), nodes, source, destination)
      ensures OnlyBelow(old(nodes), nodes, destination)
      ensures Begun(old(nodes), nodes, source, destination)
      ensures WellFormed(old(nodes)) ==> WellFormed(nodes)
      decreases Descendants(nodes, source)
    {
      ghost var before := nodes;
      ok := CreateDirAll(destination, faulty);
      if !ok {
        return;
      }
      var todo: set<string>;
      ok, todo := ReadDir(source, faulty);
      SameSource(before, nodes, source, destination);
      if !ok {
        return;
      }
      StartsPart(before, nodes, source, destination);
      while todo != {}
        invariant ok && todo <= Children(before, source)
        invariant PartCopied(before, nodes, source, destination, todo)
        invariant OnlyBelow(before, nodes, destination)
        invariant NoClashYet(before, source, destination, todo)
        invariant WellFormed(before) ==> WellFormed(nodes)
        decreases todo
      {
        var c :| c in todo;
        var fault: bool := *;
        if faulty && fault {
          PartIsBegun(before, nodes, source, destination, todo);
          return false;
        }
        ghost var now := nodes;
        Descends(before, now, source, destination, todo, c);
        if nodes[source + [c]].Folder? {
          ok := CopyDir(source + [c], destination + [c], faulty);
          FolderTurn(before, now, nodes, source, destination, todo, c, ok);
        } else {
          ok := CopyFile(source + [c], destination + [c], faulty);
          FileTurn(before, now, nodes, source, destination, todo, c, ok);
          if WellFormed(before) { FileKeepsForm(before, now, nodes, source, destination, todo, c); }
        }
        if !ok {
          return;
        }
        todo := todo - {c};
      }
      NoneLeft(before, nodes, source, destination);
      PartIsBegun(before, nodes, source, destination, {});
    }
  }
}
