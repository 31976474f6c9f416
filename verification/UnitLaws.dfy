/** Lists of symbols of any shape, seen from the text: the units that the list renames as
    a whole. A unit is a listed name, however many runs it has, or a single run that no
    listed name covers. */
module UnitLaws {
  import opened Words
  import opened Rewriting
  import opened Scanner
  import opened Rules
  import opened RenameLaws
  import opened WordLaws

  /** How many runs the unit at the head has. */
  function HeadLength(ts: seq<string>, rules: seq<Rule>): (n: nat)
    requires Named(rules) && ts != []
    ensures 0 < n <= |ts|
  {
    var i := FirstMatch(ts, Rewritings(rules));
    if i < |rules| then |Runs(rules[i].name)| else 1
  }

  function HeadUnit(ts: seq<string>, rules: seq<Rule>): string
    requires Named(rules) && ts != []
  {
    var i := FirstMatch(ts, Rewritings(rules));
    if i < |rules| then rules[i].name else ts[0]
  }

  function Units(ts: seq<string>, rules: seq<Rule>): seq<string>
    requires Named(rules)
  {
    if ts == [] then [] else [HeadUnit(ts, rules)] + Units(ts[HeadLength(ts, rules)..], rules)
  }

  function UnitsOf(text: string, rules: seq<Rule>): seq<string>
    requires Named(rules)
  {
    Units(Runs(text), rules)
  }

  lemma {:induction false} LookupFirst(rules: seq<Rule>, i: nat)
    requires i < |rules| && forall j :: 0 <= j < i ==> rules[j].name != rules[i].name
    ensures Lookup(rules, rules[i].name) == rules[i].newName
  {
    if i > 0 {
      assert rules[0].name != rules[i].name;
      LookupFirst(rules[1..], i - 1);
    }
  }

  /** The rule that matches at the head is the first one for its name. */
  lemma MatchIsLookup(ts: seq<string>, rules: seq<Rule>)
    requires FirstMatch(ts, Rewritings(rules)) < |rules|
    ensures var r := rules[FirstMatch(ts, Rewritings(rules))]; Lookup(rules, r.name) == r.newName
  {
    var i, rs := FirstMatch(ts, Rewritings(rules)), Rewritings(rules);
    forall j | 0 <= j < i ensures rules[j].name != rules[i].name {
      assert !(rs[j].lhs <= ts) && rs[i].lhs <= ts;
    }
    LookupFirst(rules, i);
  }

  lemma RunsOfRun(run: string)
    requires Uniform(run)
    ensures Runs(run) == [run]
  {
    assert Join([run]) == run;
    RunsOfJoin([run]);
  }

  lemma HeadRuns(ts: seq<string>, rules: seq<Rule>)
    requires Named(rules) && ts != [] && Alternating(ts)
    ensures Runs(HeadUnit(ts, rules)) == ts[..HeadLength(ts, rules)]
  {
    var i := FirstMatch(ts, Rewritings(rules));
    if i < |rules| {
      assert Rewritings(rules)[i].lhs <= ts;
    } else {
      RunsOfRun(ts[0]);
    }
  }

  lemma NoMatchIsUnlisted(ts: seq<string>, rules: seq<Rule>)
    requires Alternating(ts) && ts != [] && FirstMatch(ts, Rewritings(rules)) == |rules|
    ensures !Listed(rules, ts[0])
  {
    RunsOfRun(ts[0]);
    forall j | 0 <= j < |rules| ensures rules[j].name != ts[0] {
      assert Rewritings(rules)[j].lhs == Runs(rules[j].name);
      assert [ts[0]] <= ts;
    }
  }

  lemma JoinSplit(ts: seq<string>, n: nat)
    requires n <= |ts|
    ensures Join(ts) == Join(ts[..n]) + Join(ts[n..])
  {
    assert ts == ts[..n] + ts[n..];
    JoinAppend(ts[..n], ts[n..]);
  }

  /** The units of a text, put together again, are the text. */
  lemma {:induction false} JoinUnits(ts: seq<string>, rules: seq<Rule>)
    requires Named(rules) && Alternating(ts)
    ensures Join(Units(ts, rules)) == Join(ts)
    decreases |ts|
  {
    if ts != [] {
      var n := HeadLength(ts, rules);
      JoinUnits(ts[n..], rules);
      HeadRuns(ts, rules);
      JoinSplit(ts, n);
    }
  }

  lemma LookupsHead(rules: seq<Rule>, u: string, us: seq<string>)
    ensures LookupRuns(rules, [u] + us) == [Lookup(rules, u)] + LookupRuns(rules, us)
  {
  }

  lemma LookupsStep(rules: seq<Rule>, u: string, us: seq<string>)
    ensures LookupRuns(rules, [u] + us) == [Lookup(rules, u)] + LookupRuns(rules, us)
    ensures Join(LookupRuns(rules, [u] + us)) == Lookup(rules, u) + Join(LookupRuns(rules, us))
  {
    LookupsHead(rules, u, us);
    HeadOfJoin(Lookup(rules, u), LookupRuns(rules, us));
  }

  lemma HeadOfJoin(u: string, us: seq<string>)
    ensures Join([u] + us) == u + Join(us)
  {
    assert ([u] + us)[1..] == us;
  }

  /** The pass looks up the unit at the head. */
  lemma HeadLookup(ts: seq<string>, rules: seq<Rule>)
    requires Named(rules) && Usable(Rewritings(rules)) && Alternating(ts) && ts != []
    ensures Join(Simultaneous(ts, Rewritings(rules)))
         == Lookup(rules, HeadUnit(ts, rules)) + Join(Simultaneous(ts[HeadLength(ts, rules)..], Rewritings(rules)))
  {
    var rs := Rewritings(rules);
    var i := FirstMatch(ts, rs);
    if i < |rules| {
      MatchIsLookup(ts, rules);
      JoinAppend(rs[i].rhs, Simultaneous(ts[|rs[i].lhs|..], rs));
    } else {
      NoMatchIsUnlisted(ts, rules);
      LookupListed(rules, ts[0]);
      HeadOfJoin(ts[0], Simultaneous(ts[1..], rs));
    }
  }

  /** The same, told on runs. */
  lemma PassHead(ts: seq<string>, rules: seq<Rule>)
    requires Named(rules) && Usable(Rewritings(rules)) && Alternating(ts) && ts != []
    ensures Simultaneous(ts, Rewritings(rules))
         == Runs(Lookup(rules, HeadUnit(ts, rules))) + Simultaneous(ts[HeadLength(ts, rules)..], Rewritings(rules))
  {
    if FirstMatch(ts, Rewritings(rules)) < |rules| {
      MatchIsLookup(ts, rules);
    } else {
      NoMatchIsUnlisted(ts, rules);
      LookupListed(rules, ts[0]);
      RunsOfRun(ts[0]);
    }
  }

  lemma {:induction false} JoinLookups(ts: seq<string>, rules: seq<Rule>)
    requires Named(rules) && Usable(Rewritings(rules)) && Alternating(ts)
    ensures Join(LookupRuns(rules, Units(ts, rules))) == Join(Simultaneous(ts, Rewritings(rules)))
    decreases |ts|
  {
    if ts != [] {
      var rest := ts[HeadLength(ts, rules)..];
      JoinLookups(rest, rules);
      LookupsStep(rules, HeadUnit(ts, rules), Units(rest, rules));
      HeadLookup(ts, rules);
    }
  }

  /** Renaming looks up each unit of the text once, and nothing else. */
  lemma RenameUnits(text: string, rules: seq<Rule>)
    requires AllSymbols(rules) && Ordered(Rewritings(rules))
    ensures Named(rules)
    ensures Join(UnitsOf(text, rules)) == text
    ensures Join(LookupRuns(rules, UnitsOf(text, rules))) == Rename(text, rules)
  {
    RenameIsOnePass(text, rules);
    JoinUnits(Runs(text), rules);
    JoinLookups(Runs(text), rules);
  }

  /** The runs of a unit follow each other in the text; one that is not listed is one run. */
  lemma {:induction false} UnitOccurs(ts: seq<string>, rules: seq<Rule>, u: string)
    requires Named(rules) && Alternating(ts) && u in Units(ts, rules)
    ensures Occurs(Runs(u), ts)
    ensures Listed(rules, u) || Runs(u) == [u]
    decreases |ts|
  {
    var n := HeadLength(ts, rules);
    if u == HeadUnit(ts, rules) {
      HeadRuns(ts, rules);
      assert ts[0..] == ts;
      HeadKind(ts, rules);
    } else {
      UnitOccurs(ts[n..], rules, u);
      OccursInSuffix(Runs(u), ts, n);
    }
  }

  lemma HeadKind(ts: seq<string>, rules: seq<Rule>)
    requires Named(rules) && Alternating(ts) && ts != []
    ensures Listed(rules, HeadUnit(ts, rules)) || Runs(HeadUnit(ts, rules)) == [HeadUnit(ts, rules)]
  {
    if FirstMatch(ts, Rewritings(rules)) == |rules| { RunsOfRun(ts[0]); }
  }

  lemma OccursInSuffix<T>(p: seq<T>, ts: seq<T>, n: nat)
    requires n <= |ts| && Occurs(p, ts[n..])
    ensures Occurs(p, ts)
  {
    var k :| 0 <= k <= |ts[n..]| && p <= ts[n..][k..];
    assert ts[n..][k..] == ts[n + k..];
  }

  lemma NamesApart(rules: seq<Rule>, i: nat, j: nat)
    requires Ordered(Rewritings(rules)) && i < |rules| && j < |rules| && rules[i].name != rules[j].name
    ensures !Touches(Runs(rules[i].name), Runs(rules[j].name))
  {
    var rs := Rewritings(rules);
    assert Join(rs[i].lhs) != Join(rs[j].lhs);
    if Touches(rs[i].lhs, rs[j].lhs) { PatternsApart(rs, i, j); }
  }

  /** An occurrence of a name that is not the unit at the head lies behind that unit. */
  lemma OccursBehind(ts: seq<string>, rules: seq<Rule>, j: nat)
    requires Named(rules) && Ordered(Rewritings(rules)) && j < |rules| && ts != []
    requires Occurs(Runs(rules[j].name), ts) && rules[j].name != HeadUnit(ts, rules)
    ensures Occurs(Runs(rules[j].name), ts[HeadLength(ts, rules)..])
  {
    var rs := Rewritings(rules);
    var i, p := FirstMatch(ts, rs), rs[j].lhs;
    if i < |rules| {
      NamesApart(rules, i, j);
      assert ts == rs[i].lhs + ts[|rs[i].lhs|..];
      OccursBeyond(rs[i].lhs, ts[|rs[i].lhs|..], p);
    } else {
      OccursLater(p, ts);
    }
  }

  lemma {:induction false} OccursIsUnit(ts: seq<string>, rules: seq<Rule>, j: nat)
    requires Named(rules) && Ordered(Rewritings(rules)) && j < |rules|
    requires Occurs(Runs(rules[j].name), ts)
    ensures rules[j].name in Units(ts, rules)
    decreases |ts|
  {
    assert Runs(rules[j].name) != [];
    if ts != [] && rules[j].name != HeadUnit(ts, rules) {
      OccursBehind(ts, rules, j);
      OccursIsUnit(ts[HeadLength(ts, rules)..], rules, j);
    }
  }

  /** A listed name stands somewhere between word boundaries exactly when it is one of the
      units: no other name of the list takes a part of it. */
  lemma {:induction false} FoundIffUnit(text: string, rules: seq<Rule>, j: nat)
    requires AllSymbols(rules) && Ordered(Rewritings(rules)) && j < |rules|
    ensures Named(rules)
    ensures Found(rules[j].name, text) <==> rules[j].name in UnitsOf(text, rules)
  {
    RewritingsProper(rules);
    FoundIffOccurs(rules[j].name, text);
    if Found(rules[j].name, text) { OccursIsUnit(Runs(text), rules, j); }
    if rules[j].name in UnitsOf(text, rules) { UnitOccurs(Runs(text), rules, rules[j].name); }
  }

  /** In a list of words every run of the text is a unit. */
  lemma {:induction false} UnitsOfWords(ts: seq<string>, rules: seq<Rule>)
    requires AllWords(rules) && Named(rules) && Alternating(ts)
    ensures Units(ts, rules) == ts
    decreases |ts|
  {
    if ts != [] {
      HeadIsRun(ts, rules);
      UnitsOfWords(ts[1..], rules);
    }
  }

  lemma HeadIsRun(ts: seq<string>, rules: seq<Rule>)
    requires AllWords(rules) && Named(rules) && Alternating(ts) && ts != []
    ensures HeadUnit(ts, rules) == ts[0] && HeadLength(ts, rules) == 1
  {
    var i := FirstMatch(ts, Rewritings(rules));
    if i < |rules| {
      RunsOfWord(rules[i].name);
      assert Rewritings(rules)[i].lhs <= ts;
    }
  }

  // ---------------------------------------------------------------------------
  // Length
  // ---------------------------------------------------------------------------

  /** What looking up these units adds to the length of the text. */
  function Growth(rules: seq<Rule>, us: seq<string>): int {
    if us == [] then 0 else |Lookup(rules, us[0])| - |us[0]| + Growth(rules, us[1..])
  }

  lemma {:induction false} LookupGrowth(rules: seq<Rule>, us: seq<string>)
    ensures |Join(LookupRuns(rules, us))| == |Join(us)| + Growth(rules, us)
  {
    if us != [] {
      LookupGrowth(rules, us[1..]);
      assert us == [us[0]] + us[1..];
      LookupsStep(rules, us[0], us[1..]);
    }
  }

  /** The length of a renamed text, told by the list and the units of the text. */
  lemma RenameGrowth(text: string, rules: seq<Rule>)
    requires AllSymbols(rules) && Ordered(Rewritings(rules))
    ensures Named(rules)
    ensures |Rename(text, rules)| == |text| + Growth(rules, UnitsOf(text, rules))
  {
    RenameUnits(text, rules);
    LookupGrowth(rules, UnitsOf(text, rules));
  }

  /** No new name is shorter than the name it replaces. */
  predicate NoneShorter(rules: seq<Rule>) {
    forall i :: 0 <= i < |rules| ==> |rules[i].name| <= |rules[i].newName|
  }

  lemma {:induction false} NeverShrinks(rules: seq<Rule>, us: seq<string>)
    requires NoneShorter(rules)
    ensures 0 <= Growth(rules, us)
  {
    if us != [] {
      LookupListed(rules, us[0]);
      NeverShrinks(rules, us[1..]);
    }
  }

  /** Every new name is longer than the name it replaces. */
  predicate AllLonger(rules: seq<Rule>) {
    forall i :: 0 <= i < |rules| ==> |rules[i].name| < |rules[i].newName|
  }

  lemma {:induction false} NoGrowthNoLookup(rules: seq<Rule>, us: seq<string>)
    requires AllLonger(rules) && Growth(rules, us) == 0
    ensures LookupRuns(rules, us) == us
  {
    if us != [] {
      LookupListed(rules, us[0]);
      NeverShrinks(rules, us[1..]);
      NoGrowthNoLookup(rules, us[1..]);
      LookupsStep(rules, us[0], us[1..]);
      assert us == [us[0]] + us[1..];
    }
  }

  /** When every new name is longer, a text that keeps its length keeps everything. */
  lemma NoGrowthNoChange(text: string, rules: seq<Rule>)
    requires AllSymbols(rules) && Ordered(Rewritings(rules)) && AllLonger(rules)
    ensures Named(rules)
    ensures |Rename(text, rules)| == |text| ==> Rename(text, rules) == text
  {
    RenameGrowth(text, rules);
    RenameUnits(text, rules);
    if |Rename(text, rules)| == |text| { NoGrowthNoLookup(rules, UnitsOf(text, rules)); }
  }

  function Occurrences(rules: seq<Rule>, us: seq<string>): nat {
    if us == [] then 0 else (if Listed(rules, us[0]) then 1 else 0) + Occurrences(rules, us[1..])
  }

  lemma {:induction false} PrefixedGrowth(rules: seq<Rule>, us: seq<string>)
    requires Prefixed(rules)
    ensures Growth(rules, us) == 3 * Occurrences(rules, us)
  {
    if us != [] {
      LookupListed(rules, us[0]);
      PrefixedGrowth(rules, us[1..]);
    }
  }

  /** With the default prefix a text grows by three characters for every name found in it. */
  lemma {:induction false} RenameLength(text: string, rules: seq<Rule>)
    requires AllSymbols(rules) && Ordered(Rewritings(rules)) && Prefixed(rules)
    ensures Named(rules)
    ensures |Rename(text, rules)| == |text| + 3 * Occurrences(rules, UnitsOf(text, rules))
  {
    RenameGrowth(text, rules);
    PrefixedGrowth(rules, UnitsOf(text, rules));
  }
}
