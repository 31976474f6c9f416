/** What the whole list of renamings does to a text, for names of any shape the list
    uses, words and `##`-pasted names alike. */
module RenameLaws {
  import opened Words
  import opened Rewriting
  import opened Scanner
  import opened Rules

  /** A rule as a rewriting of runs. */
  function OnRuns(r: Rule): Rewrite<string> {
    Rewrite(Runs(r.name), Runs(r.newName))
  }

  function Rewritings(rules: seq<Rule>): (rs: seq<Rewrite<string>>)
    ensures |rs| == |rules| && forall i :: 0 <= i < |rules| ==> rs[i] == OnRuns(rules[i])
  {
    seq(|rules|, i requires 0 <= i < |rules| => OnRuns(rules[i]))
  }

  lemma RewritingsProper(rules: seq<Rule>)
    requires AllSymbols(rules)
    ensures Named(rules) && Proper(Rewritings(rules))
  {
    forall i | 0 <= i < |rules| ensures Runs(rules[i].name) != [] && Runs(rules[i].newName) != [] {
      RunsOfSymbol(rules[i].name);
      RunsOfSymbol(rules[i].newName);
    }
  }

  lemma SameRunsSameText(a: string, b: string)
    requires Runs(a) == Runs(b)
    ensures a == b
  {
    assert Join(Runs(a)) == a && Join(Runs(b)) == b;
  }

  /** The loop over the list, told on runs. */
  lemma {:induction false} RenameRewritesRuns(text: string, rules: seq<Rule>)
    requires AllSymbols(rules)
    ensures Named(rules) && Proper(Rewritings(rules))
    ensures Runs(Rename(text, rules)) == Fold(Runs(text), Rewritings(rules))
  {
    RewritingsProper(rules);
    if rules != [] {
      var last := |rules| - 1;
      RenameRewritesRuns(text, rules[..last]);
      ScanReplacesRuns(Rename(text, rules[..last]), rules[last].name, rules[last].newName);
      assert Rewritings(rules)[..last] == Rewritings(rules[..last]);
    }
  }

  // ---------------------------------------------------------------------------
  // One pass, in any order
  // ---------------------------------------------------------------------------

  /** Renaming by the whole list is one simultaneous pass over the runs of the text, and
      the runs it produces are the runs of the renamed text. */
  lemma {:induction false} RenameIsOnePass(text: string, rules: seq<Rule>)
    requires AllSymbols(rules) && Ordered(Rewritings(rules))
    ensures Named(rules) && Proper(Rewritings(rules))
    ensures Runs(Rename(text, rules)) == Simultaneous(Runs(text), Rewritings(rules))
    ensures Rename(text, rules) == Join(Simultaneous(Runs(text), Rewritings(rules)))
  {
    RenameRewritesRuns(text, rules);
    FoldIsSimultaneous(Runs(text), Rewritings(rules));
  }

  lemma PullOut<T>(a: seq<T>, x: T, b: seq<T>)
    ensures multiset(a + [x] + b) == multiset{x} + multiset(a + b)
  {
  }

  lemma RewritingsAppend(a: seq<Rule>, b: seq<Rule>)
    ensures Rewritings(a + b) == Rewritings(a) + Rewritings(b)
  {
  }

  lemma InsertRule(a: seq<Rule>, r: Rule, b: seq<Rule>)
    ensures multiset(Rewritings(a + [r] + b)) == multiset{OnRuns(r)} + multiset(Rewritings(a + b))
  {
    RewritingsAppend(a + [r], b);
    RewritingsAppend(a, [r]);
    RewritingsAppend(a, b);
    assert Rewritings([r]) == [OnRuns(r)];
    PullOut(Rewritings(a), OnRuns(r), Rewritings(b));
  }

  lemma {:induction false} SameRewritings(rules: seq<Rule>, others: seq<Rule>)
    requires multiset(rules) == multiset(others)
    ensures multiset(Rewritings(rules)) == multiset(Rewritings(others))
  {
    if rules == [] {
      assert |multiset(others)| == 0;
    } else {
      var r := rules[0];
      assert r in multiset(others);
      var j :| 0 <= j < |others| && others[j] == r;
      var a, b := others[..j], others[j + 1..];
      assert rules == [] + [r] + rules[1..] && others == a + [r] + b;
      PullOut([], r, rules[1..]);
      PullOut(a, r, b);
      SameMultiset(multiset([] + rules[1..]), multiset(a + b), r);
      assert [] + rules[1..] == rules[1..];
      SameRewritings(rules[1..], a + b);
      InsertRule([], r, rules[1..]);
      InsertRule(a, r, b);
    }
  }

  lemma SameMultiset<T>(a: multiset<T>, b: multiset<T>, x: T)
    requires multiset{x} + a == multiset{x} + b
    ensures a == b
  {
    assert a == (multiset{x} + a) - multiset{x};
    assert b == (multiset{x} + b) - multiset{x};
  }

  lemma SymbolsReordered(rules: seq<Rule>, others: seq<Rule>)
    requires AllSymbols(rules) && multiset(rules) == multiset(others)
    ensures AllSymbols(others)
  {
    forall i | 0 <= i < |others| ensures IsSymbol(others[i].name) && IsSymbol(others[i].newName) {
      assert others[i] in multiset(rules);
    }
  }

  /** Every reordering of an independent list renames every text to the same result. */
  lemma RenameReordered(text: string, rules: seq<Rule>, others: seq<Rule>)
    requires AllSymbols(rules) && multiset(rules) == multiset(others)
    requires Independent(multiset(Rewritings(rules)))
    ensures Named(rules) && Named(others)
    ensures Rename(text, rules) == Rename(text, others)
  {
    SymbolsReordered(rules, others);
    SameRewritings(rules, others);
    RenameRewritesRuns(text, rules);
    RenameRewritesRuns(text, others);
    FoldReordered(Runs(text), Rewritings(rules), Rewritings(others));
    SameRunsSameText(Rename(text, rules), Rename(text, others));
  }

  // ---------------------------------------------------------------------------
  // Nothing left behind, nothing to do twice
  // ---------------------------------------------------------------------------

  /** No new name can take part in a match of `name`. */
  ghost predicate Settled(rules: seq<Rule>, name: string) {
    forall i :: 0 <= i < |rules| ==> !Touches(Runs(rules[i].newName), Runs(name))
  }

  ghost predicate AllSettled(rules: seq<Rule>) {
    forall j :: 0 <= j < |rules| ==> Settled(rules, rules[j].name)
  }

  lemma {:induction false} NoNameLeft(text: string, rules: seq<Rule>, j: nat)
    requires AllSymbols(rules) && Ordered(Rewritings(rules)) && j < |rules| && Settled(rules, rules[j].name)
    ensures Named(rules) && !Found(rules[j].name, Rename(text, rules))
  {
    var p := Runs(rules[j].name);
    RenameIsOnePass(text, rules);
    assert Rewritings(rules)[j].lhs == p;
    NothingLeft(Runs(text), Rewritings(rules), p);
    FoundIffOccurs(rules[j].name, Rename(text, rules));
  }

  lemma ReplaceAbsent(text: string, name: string, newName: string)
    requires IsSymbol(name) && !Found(name, text)
    ensures Replace(text, name, newName) == text
  {
    FoundIffOccurs(name, text);
    RunsOfSymbol(name);
    assert text[0..] == text;
    ReplaceIsScan(text, name, newName, 0);
    ScanRuns(false, Runs(text), name, newName);
    SubstAbsent(Runs(text), Runs(name), Runs(newName));
  }

  lemma {:induction false} RenameNothing(text: string, rules: seq<Rule>)
    requires AllSymbols(rules)
    requires forall j :: 0 <= j < |rules| ==> !Found(rules[j].name, text)
    ensures Named(rules) && Rename(text, rules) == text
  {
    if rules != [] {
      var last := |rules| - 1;
      RenameNothing(text, rules[..last]);
      ReplaceAbsent(text, rules[last].name, rules[last].newName);
    }
  }

  /** A second run over renamed text changes nothing. */
  lemma RenameTwice(text: string, rules: seq<Rule>)
    requires AllSymbols(rules) && Ordered(Rewritings(rules)) && AllSettled(rules)
    ensures Named(rules) && Rename(Rename(text, rules), rules) == Rename(text, rules)
  {
    RewritingsProper(rules);
    forall j | 0 <= j < |rules| ensures !Found(rules[j].name, Rename(text, rules)) {
      NoNameLeft(text, rules, j);
    }
    RenameNothing(Rename(text, rules), rules);
  }

  // ---------------------------------------------------------------------------
  // Exactly when nothing is left behind
  // ---------------------------------------------------------------------------

  /** A list like the one of the project: rules that do not interfere, of symbols none of
      which can overlap itself; repeated lines are allowed. */
  ghost predicate WellBehaved(rules: seq<Rule>) {
    AllSymbols(rules) && Consistent(Rewritings(rules))
  }

  /** The runs of a text in which name `j` is found again after the renaming, when the new
      name of rule `i` overlaps it at `d`. */
  function Relapse(rules: seq<Rule>, i: nat, j: nat, d: int): seq<string>
    requires i < |rules| && j < |rules| && -|Runs(rules[j].name)| < d < |Runs(rules[i].newName)|
  {
    var p, n := Runs(rules[j].name), Runs(rules[i].newName);
    Before(p, n, d) + (Runs(rules[i].name) + After(p, n, d))
  }

  lemma AroundAlternates(p: seq<string>, n: seq<string>, q: seq<string>, d: int)
    requires Alternating(p) && Alternating(q) && p != [] && q != [] && n != [] && Overlap(n, p, d)
    requires StartsWithWord(n[0]) && StartsWithWord(n[|n| - 1])
    requires StartsWithWord(q[0]) && StartsWithWord(q[|q| - 1])
    ensures Alternating(Before(p, n, d) + (q + After(p, n, d)))
  {
    var b, a := Before(p, n, d), After(p, n, d);
    assert Alternating(a) && Alternating(b);
    if |n| < d + |p| {
      var k := |n| - 1;
      assert n[k] == p[k - d];
      assert StartsWithWord(p[k - d]) != StartsWithWord(p[k - d + 1]);
    }
    AlternatingAppend(q, a);
    if d < 0 {
      assert n[0] == p[0 - d];
      assert StartsWithWord(p[-d - 1]) != StartsWithWord(p[-d]);
    }
    AlternatingAppend(b, q + a);
  }

  lemma RelapseAlternates(rules: seq<Rule>, i: nat, j: nat, d: int)
    requires AllSymbols(rules) && i < |rules| && j < |rules|
    requires Overlap(Runs(rules[i].newName), Runs(rules[j].name), d)
    ensures Runs(Join(Relapse(rules, i, j, d))) == Relapse(rules, i, j, d)
  {
    RunsOfSymbol(rules[i].name);
    RunsOfSymbol(rules[i].newName);
    RunsOfSymbol(rules[j].name);
    AroundAlternates(Runs(rules[j].name), Runs(rules[i].newName), Runs(rules[i].name), d);
    RunsOfJoin(Relapse(rules, i, j, d));
  }

  /** If a new name can take part in a match of a listed name, some text still holds that
      name after the renaming. */
  lemma NameReturns(rules: seq<Rule>, i: nat, j: nat, d: int)
    requires WellBehaved(rules) && i < |rules| && j < |rules|
    requires Overlap(Runs(rules[i].newName), Runs(rules[j].name), d)
    ensures Named(rules) && Found(rules[j].name, Rename(Join(Relapse(rules, i, j, d)), rules))
  {
    var text, rs := Join(Relapse(rules, i, j, d)), Rewritings(rules);
    RenameIsOnePass(text, rules);
    RelapseAlternates(rules, i, j, d);
    assert rs[i] == OnRuns(rules[i]) && rs[j] == OnRuns(rules[j]);
    PatternReturns(rs, i, j, d);
    FoundIffOccurs(rules[j].name, Rename(text, rules));
  }

  /** No renamed text holds `name` between word boundaries. */
  ghost predicate Erased(rules: seq<Rule>, name: string)
    requires Named(rules)
  {
    forall text :: !Found(name, Rename(text, rules))
  }

  lemma UnsettledReturns(rules: seq<Rule>, j: nat)
    requires WellBehaved(rules) && Named(rules) && j < |rules| && !Settled(rules, rules[j].name)
    ensures !Erased(rules, rules[j].name)
  {
    var i :| 0 <= i < |rules| && Touches(Runs(rules[i].newName), Runs(rules[j].name));
    var d :| Overlap(Runs(rules[i].newName), Runs(rules[j].name), d);
    NameReturns(rules, i, j, d);
  }

  /** Exactly when the list leaves a listed name in no text: when the runs of no new name
      can overlap those of the listed one. */
  lemma ListCompleteIff(rules: seq<Rule>, j: nat)
    requires WellBehaved(rules) && j < |rules|
    ensures Named(rules)
    ensures Erased(rules, rules[j].name) <==> Settled(rules, rules[j].name)
  {
    RewritingsProper(rules);
    if Settled(rules, rules[j].name) {
      forall text ensures !Found(rules[j].name, Rename(text, rules)) {
        NoNameLeft(text, rules, j);
      }
    } else {
      UnsettledReturns(rules, j);
    }
  }

  /** No line keeps its name, or gives it a new one of fewer runs. */
  predicate Growing(rules: seq<Rule>) {
    forall i :: 0 <= i < |rules| ==>
      rules[i].name != rules[i].newName && |Runs(rules[i].name)| <= |Runs(rules[i].newName)|
  }

  /** A symbol that becomes a longer one of the same or more runs. */
  lemma GrowingWhen(rules: seq<Rule>)
    requires forall i :: 0 <= i < |rules| ==>
      |rules[i].name| < |rules[i].newName| && |Runs(rules[i].name)| <= |Runs(rules[i].newName)|
    ensures Growing(rules)
  {
  }

  lemma FoundIsRenamed(text: string, rules: seq<Rule>, j: nat)
    requires WellBehaved(rules) && Growing(rules) && j < |rules| && Found(rules[j].name, text)
    ensures Named(rules) && Rename(text, rules) != text
  {
    var rs := Rewritings(rules);
    RenameIsOnePass(text, rules);
    FoundIffOccurs(rules[j].name, text);
    forall i | 0 <= i < |rs| ensures rs[i].lhs != rs[i].rhs && |rs[i].lhs| <= |rs[i].rhs| {
      if rs[i].lhs == rs[i].rhs { SameRunsSameText(rules[i].name, rules[i].newName); }
    }
    assert Occurs(rs[j].lhs, Runs(text));
    SimultaneousChanges(Runs(text), rs);
  }

  /** A second run changes no text. */
  ghost predicate Idempotent(rules: seq<Rule>)
    requires Named(rules)
  {
    forall text :: Rename(Rename(text, rules), rules) == Rename(text, rules)
  }

  /** Exactly when a second run of the list changes no text. */
  lemma ListIdempotentIff(rules: seq<Rule>)
    requires WellBehaved(rules) && Growing(rules)
    ensures Named(rules)
    ensures Idempotent(rules) <==> AllSettled(rules)
  {
    RewritingsProper(rules);
    if Idempotent(rules) {
      forall j | 0 <= j < |rules| ensures Settled(rules, rules[j].name) {
        ListCompleteIff(rules, j);
        forall text ensures !Found(rules[j].name, Rename(text, rules)) {
          if Found(rules[j].name, Rename(text, rules)) { FoundIsRenamed(Rename(text, rules), rules, j); }
        }
      }
    }
    if AllSettled(rules) {
      forall text ensures Rename(Rename(text, rules), rules) == Rename(text, rules) {
        RenameTwice(text, rules);
      }
    }
  }

  // ---------------------------------------------------------------------------
  // One rule
  // ---------------------------------------------------------------------------

  lemma OneRule(r: Rule, text: string)
    requires IsSymbol(r.name) && IsSymbol(r.newName)
    ensures Rename(text, [r]) == Replace(text, r.name, r.newName)
  {
    assert [r][..0] == [];
    assert Rename(text, [r]) == Replace(Rename(text, []), r.name, r.newName);
  }

  lemma OneRuleBehaves(r: Rule)
    requires IsSymbol(r.name) && IsSymbol(r.newName) && Unbordered(Runs(r.name))
    ensures WellBehaved([r])
    ensures Settled([r], r.name) <==> !Touches(Runs(r.newName), Runs(r.name))
  {
    var rs := Rewritings([r]);
    assert rs[0] == OnRuns(r);
    assert Ordered(rs);
    assert Unbordered(rs[0].lhs);
    assert Consistent(rs);
    assert [r][0] == r;
  }

  /** Exactly when one rule leaves no old name in any text. */
  lemma OneRuleCompleteIff(r: Rule)
    requires IsSymbol(r.name) && IsSymbol(r.newName) && Unbordered(Runs(r.name))
    ensures (forall text :: !Found(r.name, Replace(text, r.name, r.newName)))
       <==> !Touches(Runs(r.newName), Runs(r.name))
  {
    OneRuleBehaves(r);
    ListCompleteIff([r], 0);
    forall text ensures Found(r.name, Replace(text, r.name, r.newName)) == Found(r.name, Rename(text, [r])) {
      OneRule(r, text);
    }
  }

  predicate Stable(r: Rule, text: string)
    requires r.name != ""
  {
    var once := Replace(text, r.name, r.newName);
    Replace(once, r.name, r.newName) == once
  }

  lemma FoundAgainChanges(r: Rule, text: string)
    requires IsSymbol(r.name) && IsSymbol(r.newName) && r.name != r.newName && Found(r.name, text)
    ensures Replace(text, r.name, r.newName) != text
  {
    FoundIffOccurs(r.name, text);
    ScanReplacesRuns(text, r.name, r.newName);
    if Runs(r.name) == Runs(r.newName) { SameRunsSameText(r.name, r.newName); }
    SubstChanges(Runs(text), Runs(r.name), Runs(r.newName));
  }

  /** Exactly when running one rule twice is the same as running it once, on every text. */
  lemma {:induction false} OneRuleIdempotentIff(r: Rule)
    requires IsSymbol(r.name) && IsSymbol(r.newName) && Unbordered(Runs(r.name)) && r.name != r.newName
    ensures (forall text :: Stable(r, text)) <==> !Touches(Runs(r.newName), Runs(r.name))
  {
    OneRuleCompleteIff(r);
    if forall text :: Stable(r, text) {
      forall text ensures !Found(r.name, Replace(text, r.name, r.newName)) {
        assert Stable(r, text);
        if Found(r.name, Replace(text, r.name, r.newName)) {
          FoundAgainChanges(r, Replace(text, r.name, r.newName));
        }
      }
    } else {
      var text :| !Stable(r, text);
      if !Found(r.name, Replace(text, r.name, r.newName)) {
        ReplaceAbsent(Replace(text, r.name, r.newName), r.name, r.newName);
      }
    }
  }
}
