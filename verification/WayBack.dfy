/** The way back: the list of the new names, each to be replaced by its old one. It shows
    what can still be told from the renamed text alone: its units and, for lists of any
    shape, the links between files and the original text. */
module WayBack {
  import opened Words
  import opened Rewriting
  import opened Scanner
  import opened Rules
  import opened RenameLaws
  import opened WordLaws
  import opened UnitLaws
  import opened LinkLaws

  /** Each new name back to its old name, by the same kind of list. */
  function Undo(rules: seq<Rule>): (undo: seq<Rule>)
    ensures |undo| == |rules|
    ensures forall i :: 0 <= i < |rules| ==> undo[i] == Rule(rules[i].newName, rules[i].name)
  {
    seq(|rules|, i requires 0 <= i < |rules| => Rule(rules[i].newName, rules[i].name))
  }

  /** Lines that agree on one column agree on the other; repeated lines are allowed. */
  predicate OneToOne(rules: seq<Rule>) {
    forall i, j :: 0 <= i < |rules| && 0 <= j < |rules| ==>
      (rules[i].name == rules[j].name <==> rules[i].newName == rules[j].newName)
  }

  lemma UndoLists(rules: seq<Rule>, w: string)
    ensures Listed(Undo(rules), w) <==> IsNewName(rules, w)
  {
    if IsNewName(rules, w) {
      var i :| 0 <= i < |rules| && rules[i].newName == w;
      assert Undo(rules)[i].name == w;
    }
    assert forall j :: 0 <= j < |rules| && Undo(rules)[j].name == w ==> rules[j].newName == w;
  }

  lemma NewIsNotListed(rules: seq<Rule>, w: string)
    requires Fresh(rules) && IsNewName(rules, w)
    ensures !Listed(rules, w)
  {
    var i :| 0 <= i < |rules| && rules[i].newName == w;
    assert !Listed(rules, rules[i].newName);
  }

  lemma UndoIsFresh(rules: seq<Rule>)
    requires AllWords(rules) && Fresh(rules)
    ensures AllWords(Undo(rules)) && Fresh(Undo(rules))
  {
    forall i | 0 <= i < |rules| ensures !Listed(Undo(rules), rules[i].name) {
      assert Listed(rules, rules[i].name);
      UndoLists(rules, rules[i].name);
      if IsNewName(rules, rules[i].name) { NewIsNotListed(rules, rules[i].name); }
    }
  }

  /** What the laws of this module are about: rules that do not interfere, and whose new
      names never overlap each other either. */
  ghost predicate Reversible(rules: seq<Rule>) {
    && AllSymbols(rules) && AllSymbols(Undo(rules))
    && Ordered(Rewritings(rules)) && Separate(Rewritings(Undo(rules)))
  }

  /** The same, told on runs. */
  ghost predicate Core(rules: seq<Rule>) {
    && Named(rules) && Named(Undo(rules))
    && Proper(Rewritings(rules)) && Usable(Rewritings(rules))
    && Rewritings(Undo(rules)) == Reversed(Rewritings(rules)) && Separate(Reversed(Rewritings(rules)))
  }

  lemma CoreOf(rules: seq<Rule>)
    requires Reversible(rules)
    ensures Core(rules)
  {
    RewritingsProper(rules);
    RewritingsProper(Undo(rules));
    assert Rewritings(Undo(rules)) == Reversed(Rewritings(rules));
  }

  // ---------------------------------------------------------------------------
  // New names that were there before
  // ---------------------------------------------------------------------------

  /** The list leaves each of the runs alone. */
  predicate AllUnlisted(p: seq<string>, rules: seq<Rule>) {
    forall k :: 0 <= k < |p| ==> !Listed(rules, p[k])
  }

  /** The runs stand among the units `us`, each as a unit of its own that is left alone. */
  ghost predicate Free(p: seq<string>, us: seq<string>, rules: seq<Rule>) {
    Occurs(p, us) && AllUnlisted(p, rules)
  }

  lemma {:induction false} CopiedAt(ts: seq<string>, rs: seq<Rewrite<string>>, n: nat, k: nat)
    requires Copies(ts, rs, n) && k < n
    ensures k < |ts| && FirstMatch(ts[k..], rs) == |rs|
  {
    if k == 0 {
      assert ts[0..] == ts;
    } else {
      CopiedAt(ts[1..], rs, n - 1, k - 1);
      assert ts[1..][k - 1..] == ts[k..];
    }
  }

  /** What the pass copies is not listed. */
  lemma CopiedIsUnlisted(ts: seq<string>, rules: seq<Rule>, n: nat)
    requires Alternating(ts) && Copies(ts, Rewritings(rules), n)
    ensures n <= |ts| && forall k :: 0 <= k < n ==> !Listed(rules, ts[k])
  {
    if 0 < n { CopiedAt(ts, Rewritings(rules), n, n - 1); }
    forall k | 0 <= k < n ensures !Listed(rules, ts[k]) {
      CopiedAt(ts, Rewritings(rules), n, k);
      NoMatchIsUnlisted(ts[k..], rules);
    }
  }

  lemma NextCopied(x: string, rest: seq<string>, rules: seq<Rule>, n: nat)
    requires Named(rules) && 0 < n && Copies([x] + rest, Rewritings(rules), n)
    ensures Copies(rest, Rewritings(rules), n - 1)
    ensures Units([x] + rest, rules) == [x] + Units(rest, rules)
  {
    assert ([x] + rest)[1..] == rest;
  }

  /** And each run of it is a unit. */
  lemma {:induction false} CopiedUnits(a: seq<string>, b: seq<string>, rules: seq<Rule>)
    requires Named(rules) && Copies(a + b, Rewritings(rules), |a|)
    ensures Units(a + b, rules) == a + Units(b, rules)
  {
    if a == [] {
      assert a + b == b;
    } else {
      HeadAndTail(a, b);
      NextCopied(a[0], a[1..] + b, rules, |a|);
      CopiedUnits(a[1..], b, rules);
      HeadAndTail(a, Units(b, rules));
    }
  }

  lemma HeadAlone(ts: seq<string>, rules: seq<Rule>, p: seq<string>)
    requires Named(rules) && p != [] && p <= Units(ts, rules) && !Listed(rules, p[0])
    ensures ts != [] && FirstMatch(ts, Rewritings(rules)) == |rules| && ts[0] == p[0]
    ensures p[1..] <= Units(ts[1..], rules)
  {
    assert HeadUnit(ts, rules) == p[0];
    assert Units(ts, rules)[1..] == Units(ts[1..], rules);
  }

  lemma {:induction false} UnlistedCopied(ts: seq<string>, rules: seq<Rule>, p: seq<string>)
    requires Named(rules) && p <= Units(ts, rules) && AllUnlisted(p, rules)
    ensures FreeHead(ts, Rewritings(rules), p)
    decreases |p|
  {
    if p != [] {
      HeadAlone(ts, rules, p);
      UnlistedCopied(ts[1..], rules, p[1..]);
      PrefixAndRest([ts[0]], ts);
      PrefixAndRest([ts[0]], p);
      CopiesMore(ts[0], ts[1..], p[1..], Rewritings(rules));
    }
  }

  /** New name `j` stands at the head of the units, left alone. */
  ghost predicate NewAtHead(us: seq<string>, rules: seq<Rule>, j: nat)
    requires j < |rules|
  {
    Runs(rules[j].newName) <= us && AllUnlisted(Runs(rules[j].newName), rules)
  }

  lemma FreeLater(h: string, us: seq<string>, rules: seq<Rule>, j: nat)
    requires j < |rules| && Runs(rules[j].newName) != []
    ensures Free(Runs(rules[j].newName), [h] + us, rules)
       <==> NewAtHead([h] + us, rules, j) || Free(Runs(rules[j].newName), us, rules)
  {
    var p, all := Runs(rules[j].newName), [h] + us;
    assert all[0..] == all && all[1..] == us;
    if Occurs(p, all) && !(p <= all) { OccursLater(p, all); }
    if Occurs(p, us) { OccursInSuffix(p, all, 1); }
  }

  // ---------------------------------------------------------------------------
  // The units of the renamed text
  // ---------------------------------------------------------------------------

  /** The units that the reverse list finds in the output of the pass. */
  function Back(ts: seq<string>, rules: seq<Rule>): seq<string>
    requires Usable(Rewritings(rules)) && Named(Undo(rules))
  {
    Units(Simultaneous(ts, Rewritings(rules)), Undo(rules))
  }

  lemma SameNewName(rules: seq<Rule>, i: nat, j: nat)
    requires i < |rules| && j < |rules| && Runs(rules[i].newName) == Runs(rules[j].newName)
    ensures rules[i].newName == rules[j].newName
  {
    SameRunsSameText(rules[i].newName, rules[j].newName);
  }

  lemma BackReplaced(ts: seq<string>, rules: seq<Rule>)
    requires Core(rules)
    requires ts != [] && FirstMatch(ts, Rewritings(rules)) < |rules|
    ensures var r := rules[FirstMatch(ts, Rewritings(rules))];
      Back(ts, rules) == [r.newName] + Back(ts[|Runs(r.name)|..], rules)
  {
    var rs := Rewritings(rules);
    var i, u := FirstMatch(ts, rs), Simultaneous(ts, rs);
    ReplacedHead(ts, rs, i);
    SameNewName(rules, FirstMatch(u, Reversed(rs)), i);
    assert u[|rs[i].rhs|..] == Simultaneous(ts[|rs[i].lhs|..], rs);
  }

  lemma FreeIsUnlisted(ts: seq<string>, rules: seq<Rule>, p: seq<string>)
    requires Alternating(ts) && FreeHead(ts, Rewritings(rules), p)
    ensures AllUnlisted(p, rules)
  {
    CopiedIsUnlisted(ts, rules, |p|);
    forall k | 0 <= k < |p| ensures !Listed(rules, p[k]) {
      assert p[k] == ts[k];
    }
  }

  /** Where the way back finds a new name at a copied run, all its runs were copied. */
  lemma FoundIsCopied(ts: seq<string>, rules: seq<Rule>, m: nat)
    requires Core(rules)
    requires ts != [] && FirstMatch(ts, Rewritings(rules)) == |rules|
    requires m == FirstMatch(Simultaneous(ts, Rewritings(rules)), Rewritings(Undo(rules))) < |rules|
    ensures FreeHead(ts, Rewritings(rules), Runs(rules[m].newName))
  {
    FoundIsFree(ts, Rewritings(rules), m);
  }

  lemma TakenUnit(p: seq<string>, rest: seq<string>, rules: seq<Rule>, m: nat)
    requires Named(rules) && p != [] && m < |rules| && Runs(rules[m].name) == p
    requires FirstMatch(p + rest, Rewritings(rules)) == m
    ensures Units(p + rest, rules) == [rules[m].name] + Units(rest, rules)
  {
    assert (p + rest)[|p|..] == rest;
  }

  lemma BackTaken(p: seq<string>, rest: seq<string>, rules: seq<Rule>, m: nat)
    requires Named(rules) && Named(Undo(rules)) && Usable(Rewritings(rules))
    requires p != [] && m < |rules| && Runs(rules[m].newName) == p && Copies(p + rest, Rewritings(rules), |p|)
    requires m == FirstMatch(Simultaneous(p + rest, Rewritings(rules)), Rewritings(Undo(rules)))
    ensures Units(p + rest, rules) == p + Units(rest, rules)
    ensures Back(p + rest, rules) == [rules[m].newName] + Back(rest, rules)
  {
    CopiedUnits(p, rest, rules);
    CopiedOut(p, rest, Rewritings(rules));
    TakenUnit(p, Simultaneous(rest, Rewritings(rules)), Undo(rules), m);
  }

  lemma BackCopied(ts: seq<string>, rules: seq<Rule>)
    requires Named(Undo(rules)) && Usable(Rewritings(rules))
    requires ts != [] && FirstMatch(ts, Rewritings(rules)) == |rules|
    requires FirstMatch(Simultaneous(ts, Rewritings(rules)), Rewritings(Undo(rules))) == |rules|
    ensures Back(ts, rules) == [ts[0]] + Back(ts[1..], rules)
  {
    assert Simultaneous(ts, Rewritings(rules))[1..] == Simultaneous(ts[1..], Rewritings(rules));
  }

  /** A new name at the head of the units is found on the way back. */
  lemma NewIsFound(ts: seq<string>, rules: seq<Rule>, j: nat)
    requires Core(rules)
    requires j < |rules| && NewAtHead(Units(ts, rules), rules, j)
    ensures var m := FirstMatch(Simultaneous(ts, Rewritings(rules)), Rewritings(Undo(rules)));
      m < |rules| && Runs(rules[m].newName) == Runs(rules[j].newName)
  {
    UnlistedCopied(ts, rules, Runs(rules[j].newName));
    FreeIsFound(ts, Rewritings(rules), j);
  }

  /** A new name of several runs stands among the units, so the way back takes these runs
      for one unit. */
  ghost predicate Merges(us: seq<string>, rules: seq<Rule>) {
    exists j :: 0 <= j < |rules| && 1 < |Runs(rules[j].newName)| && Free(Runs(rules[j].newName), us, rules)
  }

  ghost predicate MergesHead(us: seq<string>, rules: seq<Rule>) {
    exists j :: 0 <= j < |rules| && 1 < |Runs(rules[j].newName)| && NewAtHead(us, rules, j)
  }

  lemma MergesLater(h: string, us: seq<string>, rules: seq<Rule>)
    ensures Merges([h] + us, rules) <==> MergesHead([h] + us, rules) || Merges(us, rules)
  {
    forall j | 0 <= j < |rules| && 1 < |Runs(rules[j].newName)|
      ensures Free(Runs(rules[j].newName), [h] + us, rules)
         <==> NewAtHead([h] + us, rules, j) || Free(Runs(rules[j].newName), us, rules)
    {
      FreeLater(h, us, rules, j);
    }
  }

  /** What the units found in the output tell of those of the input. */
  ghost predicate Tells(back: seq<string>, us: seq<string>, rules: seq<Rule>) {
    && |back| <= |us|
    && (Merges(us, rules) ==> |back| < |us|)
    && (!Merges(us, rules) ==> back == LookupRuns(rules, us))
  }

  lemma TellsMore(h: string, back: seq<string>, us: seq<string>, rules: seq<Rule>)
    requires Tells(back, us, rules) && !MergesHead([h] + us, rules)
    ensures Tells([Lookup(rules, h)] + back, [h] + us, rules)
  {
    MergesLater(h, us, rules);
    LookupsHead(rules, h, us);
  }

  lemma TellsMerged(name: string, back: seq<string>, a: seq<string>, us: seq<string>, rules: seq<Rule>)
    requires Tells(back, us, rules) && 1 < |a| && Merges(a + us, rules)
    ensures Tells([name] + back, a + us, rules)
  {
  }

  lemma TellsReplaced(ts: seq<string>, rules: seq<Rule>)
    requires Core(rules)
    requires ts != [] && FirstMatch(ts, Rewritings(rules)) < |rules|
    requires var rest := ts[HeadLength(ts, rules)..]; Tells(Back(rest, rules), Units(rest, rules), rules)
    ensures Tells(Back(ts, rules), Units(ts, rules), rules)
  {
    var r, rest := rules[FirstMatch(ts, Rewritings(rules))], ts[HeadLength(ts, rules)..];
    BackReplaced(ts, rules);
    MatchIsLookup(ts, rules);
    ListedIsNoHead(r.name, Units(rest, rules), rules);
    TellsMore(r.name, Back(rest, rules), Units(rest, rules), rules);
  }

  lemma ListedIsNoHead(h: string, us: seq<string>, rules: seq<Rule>)
    requires Listed(rules, h)
    ensures !MergesHead([h] + us, rules)
  {
    forall j | 0 <= j < |rules| && 1 < |Runs(rules[j].newName)| ensures !NewAtHead([h] + us, rules, j) {
      if Runs(rules[j].newName)[0] != h { assert ([h] + us)[0] == h; }
    }
  }

  /** The way back takes no more than the one run at the head. */
  ghost predicate TakesOne(ts: seq<string>, rules: seq<Rule>)
    requires Usable(Rewritings(rules))
  {
    var m := FirstMatch(Simultaneous(ts, Rewritings(rules)), Rewritings(Undo(rules)));
    m < |rules| ==> |Runs(rules[m].newName)| <= 1
  }

  lemma BackOne(ts: seq<string>, rules: seq<Rule>)
    requires Core(rules) && TakesOne(ts, rules)
    requires ts != [] && FirstMatch(ts, Rewritings(rules)) == |rules|
    ensures Back(ts, rules) == [ts[0]] + Back(ts[1..], rules)
  {
    var u := Simultaneous(ts, Rewritings(rules));
    var m := FirstMatch(u, Rewritings(Undo(rules)));
    if m == |rules| {
      BackCopied(ts, rules);
    } else {
      var name := rules[m].newName;
      assert Rewritings(Undo(rules))[m].lhs == Runs(name) <= u && u[0] == ts[0];
      assert Runs(name) == [ts[0]];
      assert Join(Runs(name)) == ts[0];
      assert u == [ts[0]] + Simultaneous(ts[1..], Rewritings(rules));
      TakenUnit(Runs(name), Simultaneous(ts[1..], Rewritings(rules)), Undo(rules), m);
    }
  }

  lemma NothingMerges(ts: seq<string>, rules: seq<Rule>)
    requires Core(rules) && TakesOne(ts, rules)
    ensures !MergesHead(Units(ts, rules), rules)
  {
    forall j | 0 <= j < |rules| && 1 < |Runs(rules[j].newName)| ensures !NewAtHead(Units(ts, rules), rules, j) {
      if NewAtHead(Units(ts, rules), rules, j) { NewIsFound(ts, rules, j); }
    }
  }

  lemma TellsCopied(ts: seq<string>, rules: seq<Rule>)
    requires Core(rules) && Alternating(ts)
    requires ts != [] && FirstMatch(ts, Rewritings(rules)) == |rules| && TakesOne(ts, rules)
    requires Tells(Back(ts[1..], rules), Units(ts[1..], rules), rules)
    ensures Tells(Back(ts, rules), Units(ts, rules), rules)
  {
    NoMatchIsUnlisted(ts, rules);
    LookupListed(rules, ts[0]);
    BackOne(ts, rules);
    NothingMerges(ts, rules);
    TellsMore(ts[0], Back(ts[1..], rules), Units(ts[1..], rules), rules);
  }

  lemma HeadMerges(ts: seq<string>, rules: seq<Rule>, m: nat, rest: seq<string>)
    requires m < |rules| && 1 < |Runs(rules[m].newName)| && AllUnlisted(Runs(rules[m].newName), rules)
    ensures Merges(Runs(rules[m].newName) + rest, rules)
  {
    var p := Runs(rules[m].newName);
    assert (p + rest)[0..] == p + rest;
    assert Occurs(p, p + rest);
  }

  lemma TellsTaken(ts: seq<string>, p: seq<string>, rest: seq<string>, rules: seq<Rule>, m: nat)
    requires Core(rules) && ts == p + rest
    requires m < |rules| && p == Runs(rules[m].newName) && 1 < |p|
    requires AllUnlisted(p, rules) && Copies(ts, Rewritings(rules), |p|)
    requires m == FirstMatch(Simultaneous(ts, Rewritings(rules)), Rewritings(Undo(rules)))
    requires Told(rest, rules)
    ensures Told(ts, rules)
  {
    BackTaken(p, rest, rules, m);
    HeadMerges(p, rules, m, Units(rest, rules));
    TellsMerged(rules[m].newName, Back(rest, rules), p, Units(rest, rules), rules);
  }

  /** How many runs of the input one unit of the output stands for. */
  function Taken(ts: seq<string>, rules: seq<Rule>): (n: nat)
    requires Named(rules) && Usable(Rewritings(rules)) && ts != []
    ensures 0 < n
  {
    var m := FirstMatch(Simultaneous(ts, Rewritings(rules)), Rewritings(Undo(rules)));
    if FirstMatch(ts, Rewritings(rules)) < |rules| then HeadLength(ts, rules)
    else if m < |rules| && 1 < |Runs(rules[m].newName)| then |Runs(rules[m].newName)|
    else 1
  }

  lemma TakenFits(ts: seq<string>, rules: seq<Rule>)
    requires Core(rules) && ts != []
    ensures Taken(ts, rules) <= |ts|
  {
    var m := FirstMatch(Simultaneous(ts, Rewritings(rules)), Rewritings(Undo(rules)));
    if FirstMatch(ts, Rewritings(rules)) == |rules| && m < |rules| { FoundIsCopied(ts, rules, m); }
  }

  /** `Tells`, for the runs `ts`. */
  ghost predicate Told(ts: seq<string>, rules: seq<Rule>)
    requires Named(rules) && Named(Undo(rules)) && Usable(Rewritings(rules))
  {
    Tells(Back(ts, rules), Units(ts, rules), rules)
  }

  lemma ToldTaken(ts: seq<string>, rules: seq<Rule>)
    requires Core(rules) && Alternating(ts)
    requires ts != [] && FirstMatch(ts, Rewritings(rules)) == |rules| && !TakesOne(ts, rules)
    requires Taken(ts, rules) <= |ts| && Told(ts[Taken(ts, rules)..], rules)
    ensures Told(ts, rules)
  {
    var m := FirstMatch(Simultaneous(ts, Rewritings(rules)), Rewritings(Undo(rules)));
    var p := Runs(rules[m].newName);
    FoundIsCopied(ts, rules, m);
    FreeIsUnlisted(ts, rules, p);
    PrefixAndRest(p, ts);
    TellsTaken(ts, p, ts[|p|..], rules, m);
  }

  lemma ToldStep(ts: seq<string>, rules: seq<Rule>)
    requires Core(rules) && Alternating(ts)
    requires ts != [] && Taken(ts, rules) <= |ts| && Told(ts[Taken(ts, rules)..], rules)
    ensures Told(ts, rules)
  {
    if FirstMatch(ts, Rewritings(rules)) < |rules| {
      TellsReplaced(ts, rules);
    } else if TakesOne(ts, rules) {
      TellsCopied(ts, rules);
    } else {
      ToldTaken(ts, rules);
    }
  }

  lemma {:induction false} UnitsBack(ts: seq<string>, rules: seq<Rule>)
    requires Core(rules) && Alternating(ts)
    ensures Told(ts, rules)
    decreases |ts|
  {
    if ts == [] {
      NothingTells(rules);
    } else {
      TakenFits(ts, rules);
      UnitsBack(ts[Taken(ts, rules)..], rules);
      ToldStep(ts, rules);
    }
  }

  lemma NothingTells(rules: seq<Rule>)
    requires Named(rules) && Named(Undo(rules)) && Usable(Rewritings(rules))
    ensures Told([], rules)
  {
    forall j | 0 <= j < |rules| && 1 < |Runs(rules[j].newName)| ensures !Occurs(Runs(rules[j].newName), []) {
    }
  }

  /** The reverse list finds the new names in the renamed text: exactly when no new name of
      several runs stood among the units before, its units are those of the text, each
      looked up once; otherwise it finds fewer. */
  lemma RenamedUnitsIff(text: string, rules: seq<Rule>)
    requires Reversible(rules)
    ensures Named(rules) && Named(Undo(rules))
    ensures UnitsOf(Rename(text, rules), Undo(rules)) == LookupRuns(rules, UnitsOf(text, rules))
       <==> !Merges(UnitsOf(text, rules), rules)
    ensures Merges(UnitsOf(text, rules), rules) ==>
      |UnitsOf(Rename(text, rules), Undo(rules))| < |UnitsOf(text, rules)|
  {
    CoreOf(rules);
    RenameIsOnePass(text, rules);
    UnitsBack(Runs(text), rules);
  }

  // ---------------------------------------------------------------------------
  // Links between files
  // ---------------------------------------------------------------------------

  predicate InUnits(files: seq<string>, rules: seq<Rule>, w: string)
    requires Named(rules)
  {
    exists f :: 0 <= f < |files| && w in UnitsOf(files[f], rules)
  }

  lemma PlaceOfUnit(files: seq<string>, rules: seq<Rule>, w: string) returns (f: nat, i: nat)
    requires Named(rules) && InUnits(files, rules, w)
    ensures f < |files| && i < |UnitsOf(files[f], rules)| && UnitsOf(files[f], rules)[i] == w
  {
    f :| 0 <= f < |files| && w in UnitsOf(files[f], rules);
    i := PlaceOf(UnitsOf(files[f], rules), w);
  }

  lemma PlaceOf<T>(ts: seq<T>, w: T) returns (i: nat)
    requires w in ts
    ensures i < |ts| && ts[i] == w
  {
    i :| 0 <= i < |ts| && ts[i] == w;
  }

  /** Unit `i` of `a` and unit `j` of `b` are equal exactly when they are equal in the renamed
      texts, as the reverse list sees these. */
  ghost predicate UnitLinkKept(a: string, i: nat, b: string, j: nat, rules: seq<Rule>)
    requires Named(rules) && Named(Undo(rules))
  {
    var us, vs := UnitsOf(a, rules), UnitsOf(b, rules);
    var us', vs' := UnitsOf(Rename(a, rules), Undo(rules)), UnitsOf(Rename(b, rules), Undo(rules));
    i < |us| && j < |vs| ==> i < |us'| && j < |vs'| && (us'[i] == vs'[j] <==> us[i] == vs[j])
  }

  /** `UnitLinkKept`, for all units of all files. */
  ghost predicate UnitLinksKept(files: seq<string>, rules: seq<Rule>)
    requires Named(rules) && Named(Undo(rules))
  {
    forall f, g, i: nat, j: nat ::
      0 <= f < |files| && 0 <= g < |files| ==> UnitLinkKept(files[f], i, files[g], j, rules)
  }

  /** No name found in the files is given the new name of another one, or a name that stands
      in them already and stays. */
  ghost predicate NoUnitCapture(files: seq<string>, rules: seq<Rule>)
    requires Named(rules)
  {
    forall v, w :: InUnits(files, rules, v) && InUnits(files, rules, w) ==> !Captures(rules, v, w)
  }

  ghost predicate NoneMerges(files: seq<string>, rules: seq<Rule>)
    requires Named(rules)
  {
    forall f :: 0 <= f < |files| ==> !Merges(UnitsOf(files[f], rules), rules)
  }

  /** Where nothing merges, a link is kept exactly when the units are looked up apart. */
  lemma UnitLinkIff(a: string, i: nat, b: string, j: nat, rules: seq<Rule>)
    requires Reversible(rules) && Named(rules) && Named(Undo(rules))
    requires !Merges(UnitsOf(a, rules), rules) && !Merges(UnitsOf(b, rules), rules)
    requires i < |UnitsOf(a, rules)| && j < |UnitsOf(b, rules)|
    ensures UnitLinkKept(a, i, b, j, rules)
       <==> (Lookup(rules, UnitsOf(a, rules)[i]) == Lookup(rules, UnitsOf(b, rules)[j])
             <==> UnitsOf(a, rules)[i] == UnitsOf(b, rules)[j])
  {
    RenamedUnitsIff(a, rules);
    RenamedUnitsIff(b, rules);
  }

  lemma KeptMeansNoneMerges(files: seq<string>, rules: seq<Rule>)
    requires Reversible(rules) && Named(rules) && Named(Undo(rules)) && UnitLinksKept(files, rules)
    ensures NoneMerges(files, rules)
  {
    forall f | 0 <= f < |files| ensures !Merges(UnitsOf(files[f], rules), rules) {
      RenamedUnitsIff(files[f], rules);
      var last := |UnitsOf(files[f], rules)| - 1;
      if 0 <= last { assert UnitLinkKept(files[f], last, files[f], last, rules); }
    }
  }

  lemma KeptMeansNoCapture(files: seq<string>, rules: seq<Rule>)
    requires Reversible(rules) && Named(rules) && Named(Undo(rules))
    requires UnitLinksKept(files, rules) && NoneMerges(files, rules)
    ensures NoUnitCapture(files, rules)
  {
    forall v, w | InUnits(files, rules, v) && InUnits(files, rules, w) ensures !Captures(rules, v, w) {
      if v != w {
        var f, i := PlaceOfUnit(files, rules, v);
        var g, j := PlaceOfUnit(files, rules, w);
        assert UnitLinkKept(files[f], i, files[g], j, rules);
        UnitLinkIff(files[f], i, files[g], j, rules);
        CapturesIff(rules, v, w);
      }
    }
  }

  lemma NoCaptureKeeps(files: seq<string>, rules: seq<Rule>, f: nat, i: nat, g: nat, j: nat)
    requires Reversible(rules) && Named(rules) && Named(Undo(rules))
    requires NoUnitCapture(files, rules) && NoneMerges(files, rules) && f < |files| && g < |files|
    ensures UnitLinkKept(files[f], i, files[g], j, rules)
  {
    if i < |UnitsOf(files[f], rules)| && j < |UnitsOf(files[g], rules)| {
      var v, w := UnitsOf(files[f], rules)[i], UnitsOf(files[g], rules)[j];
      assert InUnits(files, rules, v) && InUnits(files, rules, w);
      if v != w { CapturesIff(rules, v, w); }
      UnitLinkIff(files[f], i, files[g], j, rules);
    }
  }

  /** For a list of any shape: headers and sources keep referring to the same things exactly
      when no new name of several runs stood in them before, and no new name captures
      another unit of them. */
  lemma UnitLinksKeptIff(files: seq<string>, rules: seq<Rule>)
    requires Reversible(rules)
    ensures Named(rules) && Named(Undo(rules))
    ensures UnitLinksKept(files, rules) <==> NoneMerges(files, rules) && NoUnitCapture(files, rules)
  {
    CoreOf(rules);
    if UnitLinksKept(files, rules) {
      KeptMeansNoneMerges(files, rules);
      KeptMeansNoCapture(files, rules);
    }
    if NoneMerges(files, rules) && NoUnitCapture(files, rules) {
      forall f, g, i: nat, j: nat | 0 <= f < |files| && 0 <= g < |files|
        ensures UnitLinkKept(files[f], i, files[g], j, rules)
      {
        NoCaptureKeeps(files, rules, f, i, g, j);
      }
    }
  }

  // ---------------------------------------------------------------------------
  // The round trip
  // ---------------------------------------------------------------------------

  /** No new name stands among the units, left alone. */
  ghost predicate NoneFree(us: seq<string>, rules: seq<Rule>) {
    forall j :: 0 <= j < |rules| ==> !Free(Runs(rules[j].newName), us, rules)
  }

  ghost predicate NoneAtHead(us: seq<string>, rules: seq<Rule>) {
    forall j :: 0 <= j < |rules| ==> !NewAtHead(us, rules, j)
  }

  lemma NoneFreeLater(h: string, us: seq<string>, rules: seq<Rule>)
    requires Core(rules)
    ensures NoneFree([h] + us, rules) <==> NoneAtHead([h] + us, rules) && NoneFree(us, rules)
  {
    forall j | 0 <= j < |rules|
      ensures Free(Runs(rules[j].newName), [h] + us, rules)
         <==> NewAtHead([h] + us, rules, j) || Free(Runs(rules[j].newName), us, rules)
    {
      assert Rewritings(rules)[j].rhs != [];
      FreeLater(h, us, rules, j);
    }
  }

  /** The runs after both passes. */
  function Returned(ts: seq<string>, rules: seq<Rule>): seq<string>
    requires Usable(Rewritings(rules)) && Usable(Rewritings(Undo(rules)))
  {
    Simultaneous(Simultaneous(ts, Rewritings(rules)), Rewritings(Undo(rules)))
  }

  /** What the returned runs tell of the runs `ts`, whose units are `us`. */
  ghost predicate Restores(back: seq<string>, ts: seq<string>, us: seq<string>, rules: seq<Rule>) {
    && (NoneFree(us, rules) ==> back == ts)
    && (AllLonger(rules) ==> |Join(back)| <= |Join(ts)|)
    && (AllLonger(rules) && !NoneFree(us, rules) ==> |Join(back)| < |Join(ts)|)
  }

  lemma RestoresMore(a: seq<string>, back: seq<string>, ts: seq<string>, h: string, us: seq<string>, rules: seq<Rule>)
    requires Core(rules) && Restores(back, ts, us, rules) && NoneAtHead([h] + us, rules)
    ensures Restores(a + back, a + ts, [h] + us, rules)
  {
    NoneFreeLater(h, us, rules);
    JoinAppend(a, back);
    JoinAppend(a, ts);
  }

  lemma RestoresTaken(back: seq<string>, rest: seq<string>, us: seq<string>, rules: seq<Rule>, m: nat)
    requires Restores(back, rest, us, rules) && m < |rules|
    requires AllUnlisted(Runs(rules[m].newName), rules)
    ensures Restores(Runs(rules[m].name) + back, Runs(rules[m].newName) + rest, Runs(rules[m].newName) + us, rules)
  {
    var p := Runs(rules[m].newName);
    assert (p + us)[0..] == p + us;
    assert Free(p, p + us, rules);
    JoinAppend(Runs(rules[m].name), back);
    JoinAppend(p, rest);
  }

  lemma ReturnedReplaced(ts: seq<string>, rules: seq<Rule>)
    requires Core(rules) && Consistent(Rewritings(Undo(rules)))
    requires ts != [] && FirstMatch(ts, Rewritings(rules)) < |rules|
    ensures var p := Runs(rules[FirstMatch(ts, Rewritings(rules))].name);
      Returned(ts, rules) == p + Returned(ts[|p|..], rules)
  {
    var i, rs := FirstMatch(ts, Rewritings(rules)), Rewritings(rules);
    PatternIsReplaced(Rewritings(Undo(rules)), i, Simultaneous(ts[|rs[i].lhs|..], rs));
  }

  lemma ReturnedCopied(ts: seq<string>, rules: seq<Rule>)
    requires Core(rules) && ts != [] && FirstMatch(ts, Rewritings(rules)) == |rules|
    requires FirstMatch(Simultaneous(ts, Rewritings(rules)), Rewritings(Undo(rules))) == |rules|
    ensures Returned(ts, rules) == [ts[0]] + Returned(ts[1..], rules)
  {
    assert Simultaneous(ts, Rewritings(rules))[1..] == Simultaneous(ts[1..], Rewritings(rules));
  }

  lemma ReturnedTaken(p: seq<string>, rest: seq<string>, rules: seq<Rule>, m: nat)
    requires Core(rules) && m < |rules| && p == Runs(rules[m].newName)
    requires Copies(p + rest, Rewritings(rules), |p|)
    requires m == FirstMatch(Simultaneous(p + rest, Rewritings(rules)), Rewritings(Undo(rules)))
    ensures Returned(p + rest, rules) == Runs(rules[m].name) + Returned(rest, rules)
  {
    var u := Simultaneous(rest, Rewritings(rules));
    CopiedOut(p, rest, Rewritings(rules));
    assert Rewritings(Undo(rules))[m] == Rewrite(p, Runs(rules[m].name));
    assert (p + u)[|p|..] == u;
  }

  /** How many runs of the input one step of both passes accounts for. */
  function Reached(ts: seq<string>, rules: seq<Rule>): (n: nat)
    requires Core(rules) && ts != []
    ensures 0 < n
  {
    var m := FirstMatch(Simultaneous(ts, Rewritings(rules)), Rewritings(Undo(rules)));
    if FirstMatch(ts, Rewritings(rules)) < |rules| then HeadLength(ts, rules)
    else if m < |rules| then Positive(|Runs(rules[m].newName)|)
    else 1
  }

  function Positive(n: nat): (m: nat)
    ensures 0 < m && (0 < n ==> m == n)
  {
    if n == 0 then 1 else n
  }

  lemma ReachedFits(ts: seq<string>, rules: seq<Rule>)
    requires Core(rules) && ts != []
    ensures Reached(ts, rules) <= |ts|
  {
    var m := FirstMatch(Simultaneous(ts, Rewritings(rules)), Rewritings(Undo(rules)));
    if FirstMatch(ts, Rewritings(rules)) == |rules| && m < |rules| {
      assert Rewritings(rules)[m].rhs != [];
      FoundIsCopied(ts, rules, m);
    }
  }

  /** `Restores`, for the runs `ts`. */
  ghost predicate Restored(ts: seq<string>, rules: seq<Rule>)
    requires Core(rules)
  {
    Restores(Returned(ts, rules), ts, Units(ts, rules), rules)
  }

  lemma RestoredMore(ts: seq<string>, a: seq<string>, rest: seq<string>, h: string, rules: seq<Rule>)
    requires Core(rules) && ts == a + rest && Returned(ts, rules) == a + Returned(rest, rules)
    requires Units(ts, rules) == [h] + Units(rest, rules) && NoneAtHead(Units(ts, rules), rules)
    requires Restored(rest, rules)
    ensures Restored(ts, rules)
  {
    RestoresMore(a, Returned(rest, rules), rest, h, Units(rest, rules), rules);
  }

  lemma HeadOfUnits(ts: seq<string>, rules: seq<Rule>)
    requires Named(rules) && ts != []
    ensures Units(ts, rules) == [HeadUnit(ts, rules)] + Units(ts[HeadLength(ts, rules)..], rules)
  {
  }

  lemma RestoredReplaced(ts: seq<string>, rules: seq<Rule>)
    requires Core(rules) && Consistent(Rewritings(Undo(rules)))
    requires ts != [] && FirstMatch(ts, Rewritings(rules)) < |rules|
    requires Restored(ts[HeadLength(ts, rules)..], rules)
    ensures Restored(ts, rules)
  {
    var r := rules[FirstMatch(ts, Rewritings(rules))];
    var p := Runs(r.name);
    ReturnedReplaced(ts, rules);
    HeadOfUnits(ts, rules);
    ListedHead(r.name, Units(ts[|p|..], rules), rules);
    PrefixAndRest(p, ts);
    RestoredMore(ts, p, ts[|p|..], r.name, rules);
  }

  lemma ListedHead(h: string, us: seq<string>, rules: seq<Rule>)
    requires Core(rules) && Listed(rules, h)
    ensures NoneAtHead([h] + us, rules)
  {
    forall j | 0 <= j < |rules| ensures !NewAtHead([h] + us, rules, j) {
      assert Rewritings(rules)[j].rhs != [];
      if Runs(rules[j].newName)[0] != h { assert ([h] + us)[0] == h; }
    }
  }

  lemma NotFoundNotThere(ts: seq<string>, rules: seq<Rule>)
    requires Core(rules)
    requires FirstMatch(Simultaneous(ts, Rewritings(rules)), Rewritings(Undo(rules))) == |rules|
    ensures NoneAtHead(Units(ts, rules), rules)
  {
    forall j | 0 <= j < |rules| ensures !NewAtHead(Units(ts, rules), rules, j) {
      if NewAtHead(Units(ts, rules), rules, j) { NewIsFound(ts, rules, j); }
    }
  }

  lemma RestoredCopied(ts: seq<string>, rules: seq<Rule>)
    requires Core(rules) && ts != [] && FirstMatch(ts, Rewritings(rules)) == |rules|
    requires FirstMatch(Simultaneous(ts, Rewritings(rules)), Rewritings(Undo(rules))) == |rules|
    requires Restored(ts[1..], rules)
    ensures Restored(ts, rules)
  {
    ReturnedCopied(ts, rules);
    HeadOfUnits(ts, rules);
    NotFoundNotThere(ts, rules);
    PrefixAndRest([ts[0]], ts);
    RestoredMore(ts, [ts[0]], ts[1..], ts[0], rules);
  }

  lemma RestoredTaken(ts: seq<string>, p: seq<string>, rest: seq<string>, rules: seq<Rule>, m: nat)
    requires Core(rules) && ts == p + rest && m < |rules| && p == Runs(rules[m].newName)
    requires AllUnlisted(p, rules) && Copies(ts, Rewritings(rules), |p|)
    requires m == FirstMatch(Simultaneous(ts, Rewritings(rules)), Rewritings(Undo(rules)))
    requires Restored(rest, rules)
    ensures Restored(ts, rules)
  {
    ReturnedTaken(p, rest, rules, m);
    CopiedUnits(p, rest, rules);
    RestoresTaken(Returned(rest, rules), rest, Units(rest, rules), rules, m);
  }

  lemma RestoredStep(ts: seq<string>, rules: seq<Rule>)
    requires Core(rules) && Consistent(Rewritings(Undo(rules))) && Alternating(ts)
    requires ts != [] && Reached(ts, rules) <= |ts| && Restored(ts[Reached(ts, rules)..], rules)
    ensures Restored(ts, rules)
  {
    var m := FirstMatch(Simultaneous(ts, Rewritings(rules)), Rewritings(Undo(rules)));
    if FirstMatch(ts, Rewritings(rules)) < |rules| {
      RestoredReplaced(ts, rules);
    } else if m == |rules| {
      RestoredCopied(ts, rules);
    } else {
      var p := Runs(rules[m].newName);
      assert Rewritings(rules)[m].rhs != [];
      FoundIsCopied(ts, rules, m);
      FreeIsUnlisted(ts, rules, p);
      PrefixAndRest(p, ts);
      RestoredTaken(ts, p, ts[|p|..], rules, m);
    }
  }

  lemma {:induction false} RunsRestored(ts: seq<string>, rules: seq<Rule>)
    requires Core(rules) && Consistent(Rewritings(Undo(rules))) && Alternating(ts)
    ensures Restored(ts, rules)
    decreases |ts|
  {
    if ts == [] {
      NothingRestored(rules);
    } else {
      ReachedFits(ts, rules);
      RunsRestored(ts[Reached(ts, rules)..], rules);
      RestoredStep(ts, rules);
    }
  }

  lemma NothingRestored(rules: seq<Rule>)
    requires Core(rules)
    ensures Restored([], rules)
  {
    forall j | 0 <= j < |rules| ensures !Occurs(Runs(rules[j].newName), []) {
      assert Rewritings(rules)[j].rhs != [];
    }
  }

  /** No new name stands in the text between word boundaries. */
  ghost predicate NoneNew(text: string, rules: seq<Rule>) {
    forall j :: 0 <= j < |rules| ==> !Found(rules[j].newName, text)
  }

  /** A free new name is found in the text. */
  lemma {:induction false} FreeOccurs(ts: seq<string>, rules: seq<Rule>, p: seq<string>)
    requires Named(rules) && p != [] && Free(p, Units(ts, rules), rules)
    ensures Occurs(p, ts)
    decreases |ts|
  {
    if p <= Units(ts, rules) {
      UnlistedCopied(ts, rules, p);
      assert ts[0..] == ts;
    } else {
      OccursLater(p, Units(ts, rules));
      var n := HeadLength(ts, rules);
      assert Units(ts, rules)[1..] == Units(ts[n..], rules);
      FreeOccurs(ts[n..], rules, p);
      OccursInSuffix(p, ts, n);
    }
  }

  lemma NoneNewNoneFree(text: string, rules: seq<Rule>)
    requires Reversible(rules) && Named(rules) && NoneNew(text, rules)
    ensures NoneFree(UnitsOf(text, rules), rules)
  {
    forall j | 0 <= j < |rules| ensures !Free(Runs(rules[j].newName), UnitsOf(text, rules), rules) {
      FoundIffOccurs(rules[j].newName, text);
      RunsOfSymbol(rules[j].newName);
      if Free(Runs(rules[j].newName), UnitsOf(text, rules), rules) {
        FreeOccurs(Runs(text), rules, Runs(rules[j].newName));
      }
    }
  }

  /** Renamed back, a text holds no new name, when no new name can overlap a listed one. */
  lemma NoneNewBack(text: string, rules: seq<Rule>)
    requires Reversible(rules) && AllSettled(rules)
    ensures Named(rules) && Named(Undo(rules))
    ensures NoneNew(Rename(Rename(text, rules), Undo(rules)), rules)
  {
    CoreOf(rules);
    forall j | 0 <= j < |rules| ensures !Found(rules[j].newName, Rename(Rename(text, rules), Undo(rules))) {
      NewIsSettled(rules, j);
      NoNameLeft(Rename(text, rules), Undo(rules), j);
    }
  }

  lemma NewIsSettled(rules: seq<Rule>, j: nat)
    requires AllSettled(rules) && j < |rules|
    ensures Settled(Undo(rules), Undo(rules)[j].name)
  {
    forall i | 0 <= i < |rules| ensures !Touches(Runs(Undo(rules)[i].newName), Runs(Undo(rules)[j].name)) {
      if Touches(Runs(rules[i].name), Runs(rules[j].newName)) {
        TouchesSymmetric(Runs(rules[i].name), Runs(rules[j].newName));
        assert Settled(rules, rules[i].name);
      }
    }
  }

  lemma RoundTripWhen(text: string, rules: seq<Rule>)
    requires Reversible(rules) && Consistent(Rewritings(Undo(rules)))
    ensures Named(rules) && Named(Undo(rules))
    ensures NoneFree(UnitsOf(text, rules), rules) ==> Rename(Rename(text, rules), Undo(rules)) == text
    ensures AllLonger(rules) && !NoneFree(UnitsOf(text, rules), rules) ==>
      |Rename(Rename(text, rules), Undo(rules))| < |text|
  {
    CoreOf(rules);
    RenameIsOnePass(text, rules);
    RenameIsOnePass(Rename(text, rules), Undo(rules));
    RunsRestored(Runs(text), rules);
  }

  /** Exactly when renaming and renaming back restores a text, character for character: when
      no new name stood in it on units that the list leaves alone. This is about lists whose
      new names are longer, or else overlap no listed name. */
  lemma RoundTripIff(text: string, rules: seq<Rule>)
    requires Reversible(rules) && Consistent(Rewritings(Undo(rules))) && (AllLonger(rules) || AllSettled(rules))
    ensures Named(rules) && Named(Undo(rules))
    ensures Rename(Rename(text, rules), Undo(rules)) == text <==> NoneFree(UnitsOf(text, rules), rules)
  {
    RoundTripWhen(text, rules);
    if AllSettled(rules) && Rename(Rename(text, rules), Undo(rules)) == text {
      NoneNewBack(text, rules);
      NoneNewNoneFree(text, rules);
    }
  }

  /** When no new name overlaps a listed one: when no new name was found in it at all. */
  lemma SettledRoundTripIff(text: string, rules: seq<Rule>)
    requires Reversible(rules) && Consistent(Rewritings(Undo(rules))) && AllSettled(rules)
    ensures Named(rules) && Named(Undo(rules))
    ensures Rename(Rename(text, rules), Undo(rules)) == text <==> NoneNew(text, rules)
  {
    CoreOf(rules);
    NoneNewBack(text, rules);
    if NoneNew(text, rules) {
      NoneNewNoneFree(text, rules);
      RoundTripWhen(text, rules);
    }
  }

  lemma UndoIsConsistent(rules: seq<Rule>)
    requires AllWords(rules) && Fresh(rules) && OneToOne(rules)
    ensures Consistent(Rewritings(Undo(rules)))
  {
    var undo := Undo(rules);
    UndoIsFresh(rules);
    FreshIsSettled(undo);
    forall i | 0 <= i < |undo| ensures Rewritings(undo)[i] == Rewrite([undo[i].name], [undo[i].newName]) {
      RunsOfWord(undo[i].name);
      RunsOfWord(undo[i].newName);
    }
    forall i, j | 0 <= i < |undo| && 0 <= j < |undo| && Rewritings(undo)[i].lhs == Rewritings(undo)[j].lhs
      ensures Rewritings(undo)[i].rhs == Rewritings(undo)[j].rhs
    {
      assert [undo[i].name][0] == [undo[j].name][0];
    }
  }

  lemma WordFound(text: string, w: string)
    requires IsWord(w)
    ensures Found(w, text) <==> w in Runs(text)
  {
    var ts := Runs(text);
    WordIsSymbol(w);
    RunsOfWord(w);
    FoundIffOccurs(w, text);
    if w in ts {
      var k :| 0 <= k < |ts| && ts[k] == w;
      assert [w] <= ts[k..];
    }
  }

  lemma NoneNewIff(text: string, rules: seq<Rule>)
    requires AllWords(rules)
    ensures NoneNew(text, rules) <==> forall w :: w in Runs(text) ==> !IsNewName(rules, w)
  {
    forall j | 0 <= j < |rules|
      ensures Found(rules[j].newName, text) <==> rules[j].newName in Runs(text)
      ensures IsNewName(rules, rules[j].newName)
    {
      WordFound(text, rules[j].newName);
    }
  }

  /** For words: when no new name was a word of the text to begin with. */
  lemma WordsRoundTripIff(text: string, rules: seq<Rule>)
    requires AllWords(rules) && Fresh(rules) && OneToOne(rules)
    ensures Named(rules) && Named(Undo(rules))
    ensures Rename(Rename(text, rules), Undo(rules)) == text
       <==> forall w :: w in Runs(text) ==> !IsNewName(rules, w)
  {
    FreshIsSettled(rules);
    UndoIsFresh(rules);
    WordsAreSymbols(Undo(rules));
    UndoIsConsistent(rules);
    SettledRoundTripIff(text, rules);
    NoneNewIff(text, rules);
  }
}
