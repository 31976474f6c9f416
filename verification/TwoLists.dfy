/** Two lists over the same text: when they rename it to the same. */
module TwoLists {
  import opened Words
  import opened Rewriting
  import opened Rules
  import opened RenameLaws
  import opened WordLaws
  import opened UnitLaws

  /** Every name of several words in `rules` is listed by `others` too, with the same new
      name; words may differ at will, but become words. */
  predicate PastedIn(rules: seq<Rule>, others: seq<Rule>) {
    forall i :: 0 <= i < |rules| ==>
      if IsWord(rules[i].name) then IsWord(rules[i].newName)
      else Listed(others, rules[i].name) && Lookup(rules, rules[i].name) == Lookup(others, rules[i].name)
  }

  /** Both lists have the same pasted names, wherever they stand. */
  ghost predicate SamePasted(rules: seq<Rule>, others: seq<Rule>) {
    && AllSymbols(rules) && AllSymbols(others) && Ordered(Rewritings(rules)) && Ordered(Rewritings(others))
    && PastedIn(rules, others) && PastedIn(others, rules)
  }

  /** A listed pattern at the head is the one that matches there. */
  lemma MatchesHere(ts: seq<string>, rules: seq<Rule>, j: nat)
    requires Named(rules) && Ordered(Rewritings(rules)) && j < |rules| && ts != [] && Runs(rules[j].name) <= ts
    ensures HeadUnit(ts, rules) == rules[j].name && HeadLength(ts, rules) == |Runs(rules[j].name)|
  {
    var rs := Rewritings(rules);
    var i := FirstMatch(ts, rs);
    assert rs[j].lhs <= ts;
    SameRule(ts, rs[i], rs[j]);
    PatternsApart(rs, i, j);
    SameRunsSameText(rules[i].name, rules[j].name);
  }

  /** A pasted name stands at the head. */
  predicate PastedHead(ts: seq<string>, rules: seq<Rule>)
    requires Named(rules)
  {
    var i := FirstMatch(ts, Rewritings(rules));
    i < |rules| && !IsWord(rules[i].name)
  }

  lemma PlainHead(ts: seq<string>, rules: seq<Rule>)
    requires Named(rules) && ts != [] && !PastedHead(ts, rules)
    ensures HeadUnit(ts, rules) == ts[0] && HeadLength(ts, rules) == 1
  {
    var i := FirstMatch(ts, Rewritings(rules));
    if i < |rules| {
      RunsOfWord(rules[i].name);
      assert Rewritings(rules)[i].lhs <= ts;
    }
  }

  lemma SamePastedHead(ts: seq<string>, rules: seq<Rule>, others: seq<Rule>)
    requires Named(rules) && Named(others) && Ordered(Rewritings(others)) && PastedIn(rules, others)
    requires ts != [] && PastedHead(ts, rules)
    ensures HeadUnit(ts, others) == HeadUnit(ts, rules) && HeadLength(ts, others) == HeadLength(ts, rules)
    ensures !IsWord(HeadUnit(ts, rules))
    ensures Lookup(rules, HeadUnit(ts, rules)) == Lookup(others, HeadUnit(ts, rules))
  {
    var i := FirstMatch(ts, Rewritings(rules));
    var j :| 0 <= j < |others| && others[j].name == rules[i].name;
    assert Rewritings(rules)[i].lhs <= ts;
    MatchesHere(ts, others, j);
  }

  lemma SameHead(ts: seq<string>, rules: seq<Rule>, others: seq<Rule>)
    requires SamePasted(rules, others) && Named(rules) && Named(others) && ts != []
    ensures HeadUnit(ts, others) == HeadUnit(ts, rules) && HeadLength(ts, others) == HeadLength(ts, rules)
    ensures PastedHead(ts, rules) ==> Lookup(rules, HeadUnit(ts, rules)) == Lookup(others, HeadUnit(ts, rules))
    ensures !PastedHead(ts, rules) ==> HeadUnit(ts, rules) == ts[0]
  {
    if PastedHead(ts, rules) {
      SamePastedHead(ts, rules, others);
    } else if PastedHead(ts, others) {
      SamePastedHead(ts, others, rules);
      PlainHead(ts, rules);
    } else {
      PlainHead(ts, rules);
      PlainHead(ts, others);
    }
  }

  lemma {:induction false} SameUnits(ts: seq<string>, rules: seq<Rule>, others: seq<Rule>)
    requires SamePasted(rules, others) && Named(rules) && Named(others)
    ensures Units(ts, others) == Units(ts, rules)
    decreases |ts|
  {
    if ts != [] {
      SameHead(ts, rules, others);
      SameUnits(ts[HeadLength(ts, rules)..], rules, others);
    }
  }

  /** A single run is looked up as a single run. */
  lemma LookupIsRun(w: string, rules: seq<Rule>, others: seq<Rule>)
    requires AllSymbols(rules) && PastedIn(rules, others) && Uniform(w)
    ensures |Runs(Lookup(rules, w))| == 1
  {
    LookupListed(rules, w);
    if Listed(rules, w) {
      var i :| 0 <= i < |rules| && rules[i].name == w && Lookup(rules, w) == rules[i].newName;
      assert StartsWithWord(w) && IsWord(w);
      RunsOfWord(rules[i].newName);
    } else {
      RunsOfRun(w);
    }
  }

  /** What the two passes write for the unit at the head has the same number of runs. */
  lemma SameCount(ts: seq<string>, rules: seq<Rule>, others: seq<Rule>)
    requires SamePasted(rules, others) && Named(rules) && Named(others) && Alternating(ts) && ts != []
    ensures |Runs(Lookup(rules, HeadUnit(ts, rules)))| == |Runs(Lookup(others, HeadUnit(ts, rules)))|
  {
    SameHead(ts, rules, others);
    if !PastedHead(ts, rules) {
      LookupIsRun(ts[0], rules, others);
      LookupIsRun(ts[0], others, rules);
    }
  }

  lemma SameParts<T>(a: seq<T>, x: seq<T>, b: seq<T>, y: seq<T>)
    requires |a| == |b|
    ensures a + x == b + y <==> a == b && x == y
  {
    if a + x == b + y {
      assert a == (a + x)[..|a|] && b == (b + y)[..|a|];
      assert x == (a + x)[|a|..] && y == (b + y)[|a|..];
    }
  }

  /** Both lists look up every unit alike. */
  predicate SameLookups(us: seq<string>, rules: seq<Rule>, others: seq<Rule>) {
    forall k :: 0 <= k < |us| ==> Lookup(rules, us[k]) == Lookup(others, us[k])
  }

  lemma SameLookupsMore(h: string, us: seq<string>, rules: seq<Rule>, others: seq<Rule>)
    ensures SameLookups([h] + us, rules, others)
       <==> Lookup(rules, h) == Lookup(others, h) && SameLookups(us, rules, others)
  {
    var all := [h] + us;
    if SameLookups(all, rules, others) {
      assert all[0] == h;
      forall k | 0 <= k < |us| ensures Lookup(rules, us[k]) == Lookup(others, us[k]) {
        assert all[k + 1] == us[k];
      }
    }
  }

  /** Both passes write the same. */
  ghost predicate PassesAgree(ts: seq<string>, rules: seq<Rule>, others: seq<Rule>)
    requires Usable(Rewritings(rules)) && Usable(Rewritings(others))
  {
    Simultaneous(ts, Rewritings(rules)) == Simultaneous(ts, Rewritings(others))
  }

  lemma SameHeads(ts: seq<string>, rules: seq<Rule>, others: seq<Rule>)
    requires SamePasted(rules, others) && Named(rules) && Named(others) && Alternating(ts) && ts != []
    requires Usable(Rewritings(rules)) && Usable(Rewritings(others))
    ensures PassesAgree(ts, rules, others)
       <==> && Lookup(rules, HeadUnit(ts, rules)) == Lookup(others, HeadUnit(ts, rules))
            && PassesAgree(ts[HeadLength(ts, rules)..], rules, others)
  {
    var h, rest := HeadUnit(ts, rules), ts[HeadLength(ts, rules)..];
    SameHead(ts, rules, others);
    SameCount(ts, rules, others);
    PassHead(ts, rules);
    PassHead(ts, others);
    SameParts(
      Runs(Lookup(rules, h)), Simultaneous(rest, Rewritings(rules)),
      Runs(Lookup(others, h)), Simultaneous(rest, Rewritings(others))
    );
    if Runs(Lookup(rules, h)) == Runs(Lookup(others, h)) { SameRunsSameText(Lookup(rules, h), Lookup(others, h)); }
  }

  lemma SameUnitsMore(ts: seq<string>, rules: seq<Rule>, others: seq<Rule>)
    requires Named(rules) && ts != []
    ensures SameLookups(Units(ts, rules), rules, others)
       <==> && Lookup(rules, HeadUnit(ts, rules)) == Lookup(others, HeadUnit(ts, rules))
            && SameLookups(Units(ts[HeadLength(ts, rules)..], rules), rules, others)
  {
    SameLookupsMore(HeadUnit(ts, rules), Units(ts[HeadLength(ts, rules)..], rules), rules, others);
  }

  ghost predicate AgreeByUnits(ts: seq<string>, rules: seq<Rule>, others: seq<Rule>)
    requires Named(rules) && Usable(Rewritings(rules)) && Usable(Rewritings(others))
  {
    PassesAgree(ts, rules, others) <==> SameLookups(Units(ts, rules), rules, others)
  }

  lemma AgreeMore(ts: seq<string>, rules: seq<Rule>, others: seq<Rule>)
    requires SamePasted(rules, others) && Named(rules) && Named(others) && Alternating(ts) && ts != []
    requires Usable(Rewritings(rules)) && Usable(Rewritings(others))
    requires AgreeByUnits(ts[HeadLength(ts, rules)..], rules, others)
    ensures AgreeByUnits(ts, rules, others)
  {
    SameHeads(ts, rules, others);
    SameUnitsMore(ts, rules, others);
  }

  /** The passes agree at a unit and behind it exactly when they agree at both. */
  ghost predicate AgreeStepwise(rules: seq<Rule>, others: seq<Rule>)
    requires Named(rules) && Usable(Rewritings(rules)) && Usable(Rewritings(others))
  {
    forall ts :: ts != [] && Alternating(ts) && AgreeByUnits(ts[HeadLength(ts, rules)..], rules, others) ==>
      AgreeByUnits(ts, rules, others)
  }

  lemma {:induction false} AgreeAll(ts: seq<string>, rules: seq<Rule>, others: seq<Rule>)
    requires Named(rules) && Usable(Rewritings(rules)) && Usable(Rewritings(others))
    requires AgreeStepwise(rules, others) && Alternating(ts)
    ensures AgreeByUnits(ts, rules, others)
    decreases |ts|
  {
    if ts != [] {
      AgreeAll(ts[HeadLength(ts, rules)..], rules, others);
    }
  }

  lemma SamePass(ts: seq<string>, rules: seq<Rule>, others: seq<Rule>)
    requires SamePasted(rules, others) && Named(rules) && Named(others) && Alternating(ts)
    requires Usable(Rewritings(rules)) && Usable(Rewritings(others))
    ensures AgreeByUnits(ts, rules, others)
  {
    forall ts | ts != [] && Alternating(ts) && AgreeByUnits(ts[HeadLength(ts, rules)..], rules, others)
      ensures AgreeByUnits(ts, rules, others)
    {
      AgreeMore(ts, rules, others);
    }
    AgreeAll(ts, rules, others);
  }

  /** Exactly when two lists with the same pasted names, and any words, rename a text to the
      same: when they look up each of its units alike. */
  lemma SameRenameIff(text: string, rules: seq<Rule>, others: seq<Rule>)
    requires SamePasted(rules, others)
    ensures Named(rules) && Named(others) && UnitsOf(text, rules) == UnitsOf(text, others)
    ensures Rename(text, rules) == Rename(text, others) <==> SameLookups(UnitsOf(text, rules), rules, others)
  {
    RenameIsOnePass(text, rules);
    RenameIsOnePass(text, others);
    SameUnits(Runs(text), rules, others);
    SamePass(Runs(text), rules, others);
  }

  lemma {:induction false} LookupBegins(pasted: seq<Rule>, words: seq<Rule>, w: string)
    ensures Lookup(pasted + words, w) == if Listed(pasted, w) then Lookup(pasted, w) else Lookup(words, w)
  {
    if words == [] {
      assert pasted + words == pasted;
      LookupListed(pasted, w);
    } else {
      var init, last := words[..|words| - 1], words[|words| - 1];
      assert words == init + [last] && pasted + words == (pasted + init) + [last];
      LookupBegins(pasted, init, w);
      LookupOneMore(pasted + init, last, w);
      LookupOneMore(init, last, w);
      ListedBegins(pasted, init, w);
      LookupListed(pasted, w);
    }
  }

  lemma ListedBegins(a: seq<Rule>, b: seq<Rule>, w: string)
    ensures Listed(a + b, w) <==> Listed(a, w) || Listed(b, w)
  {
    if i :| 0 <= i < |a| && a[i].name == w { assert (a + b)[i].name == w; }
    if i :| 0 <= i < |b| && b[i].name == w { assert (a + b)[|a| + i].name == w; }
  }

  /** Two lists that begin with the same pasted names, and go on with words, agree on them. */
  lemma BeginsIsPastedIn(pasted: seq<Rule>, a: seq<Rule>, b: seq<Rule>)
    requires AllWords(a) && forall i :: 0 <= i < |pasted| ==> !IsWord(pasted[i].name)
    ensures PastedIn(pasted + a, pasted + b)
  {
    var rules, others := pasted + a, pasted + b;
    forall i | 0 <= i < |rules| && !IsWord(rules[i].name)
      ensures Listed(others, rules[i].name) && Lookup(rules, rules[i].name) == Lookup(others, rules[i].name)
    {
      assert i < |pasted| && others[i] == rules[i] == pasted[i];
      LookupBegins(pasted, a, rules[i].name);
      LookupBegins(pasted, b, rules[i].name);
    }
  }

  lemma SameBeginning(pasted: seq<Rule>, a: seq<Rule>, b: seq<Rule>)
    requires AllWords(a) && AllWords(b) && forall i :: 0 <= i < |pasted| ==> !IsWord(pasted[i].name)
    requires AllSymbols(pasted + a) && AllSymbols(pasted + b)
    requires Ordered(Rewritings(pasted + a)) && Ordered(Rewritings(pasted + b))
    ensures SamePasted(pasted + a, pasted + b)
  {
    BeginsIsPastedIn(pasted, a, b);
    BeginsIsPastedIn(pasted, b, a);
  }
}
