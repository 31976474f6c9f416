/** Lists of plain words, which is what nearly every line of the list is. The loop over
    the list acts on each word of the text by itself. */
module WordLaws {
  import opened Words
  import opened Rewriting
  import opened Scanner
  import opened Rules
  import opened RenameLaws

  predicate AllWords(rules: seq<Rule>) {
    forall i :: 0 <= i < |rules| ==> IsWord(rules[i].name) && IsWord(rules[i].newName)
  }

  lemma WordsAreSymbols(rules: seq<Rule>)
    requires AllWords(rules)
    ensures AllSymbols(rules) && Named(rules)
  {
    forall i | 0 <= i < |rules| ensures IsSymbol(rules[i].name) && IsSymbol(rules[i].newName) {
      WordIsSymbol(rules[i].name);
      WordIsSymbol(rules[i].newName);
    }
  }

  lemma WordIsSymbol(w: string)
    requires IsWord(w)
    ensures IsSymbol(w)
  {
  }

  /** A word after all the rules, each applied to what the one before made of it. */
  function Renamed(rules: seq<Rule>, w: string): string {
    if rules == [] then w
    else
      var last := rules[|rules| - 1];
      var v := Renamed(rules[..|rules| - 1], w);
      if v == last.name then last.newName else v
  }

  function RenamedRuns(rules: seq<Rule>, ts: seq<string>): (us: seq<string>)
    ensures |us| == |ts| && forall i :: 0 <= i < |ts| ==> us[i] == Renamed(rules, ts[i])
  {
    seq(|ts|, i requires 0 <= i < |ts| => Renamed(rules, ts[i]))
  }

  lemma {:induction false} SubstWord(ts: seq<string>, w: string, v: string)
    ensures |Subst(ts, [w], [v])| == |ts|
    ensures forall i :: 0 <= i < |ts| ==> Subst(ts, [w], [v])[i] == if ts[i] == w then v else ts[i]
  {
    if ts != [] {
      assert [w] <= ts <==> ts[0] == w;
      SubstWord(ts[1..], w, v);
      assert Subst(ts, [w], [v]) == [if ts[0] == w then v else ts[0]] + Subst(ts[1..], [w], [v]);
    }
  }

  /** The loop of word-boundary replacements renames every word by itself and touches
      nothing else: the runs of the result are the runs of the text, each one renamed. */
  lemma {:induction false} RenameMapsWords(text: string, rules: seq<Rule>)
    requires AllWords(rules)
    ensures Named(rules)
    ensures Runs(Rename(text, rules)) == RenamedRuns(rules, Runs(text))
  {
    WordsAreSymbols(rules);
    if rules == [] {
      assert RenamedRuns(rules, Runs(text)) == Runs(text);
    } else {
      var init, last := rules[..|rules| - 1], rules[|rules| - 1];
      RenameMapsWords(text, init);
      RunsOfWord(last.name);
      RunsOfWord(last.newName);
      ScanReplacesRuns(Rename(text, init), last.name, last.newName);
      SubstWord(RenamedRuns(init, Runs(text)), last.name, last.newName);
    }
  }

  /** Everything that is not a word stays, character for character and in its place. */
  lemma SeparatorsStay(text: string, rules: seq<Rule>, i: nat)
    requires AllWords(rules) && i < |Runs(text)|
    ensures Named(rules) && |Runs(Rename(text, rules))| == |Runs(text)|
    ensures StartsWithWord(Runs(Rename(text, rules))[i]) == StartsWithWord(Runs(text)[i])
    ensures !StartsWithWord(Runs(text)[i]) ==> Runs(Rename(text, rules))[i] == Runs(text)[i]
  {
    RenameMapsWords(text, rules);
    assert Uniform(Runs(text)[i]);
    RenamedKind(rules, Runs(text)[i]);
  }

  lemma {:induction false} RenamedKind(rules: seq<Rule>, w: string)
    requires AllWords(rules) && w != ""
    ensures StartsWithWord(Renamed(rules, w)) == StartsWithWord(w) && Renamed(rules, w) != ""
    ensures IsWord(w) ==> IsWord(Renamed(rules, w))
    ensures !StartsWithWord(w) ==> Renamed(rules, w) == w
  {
    if rules != [] {
      RenamedKind(rules[..|rules| - 1], w);
    }
  }

  lemma RenameWord(w: string, rules: seq<Rule>)
    requires AllWords(rules) && IsWord(w)
    ensures Named(rules) && Rename(w, rules) == Renamed(rules, w)
  {
    RunsOfWord(w);
    RenameMapsWords(w, rules);
    assert Join([Renamed(rules, w)]) == Renamed(rules, w);
    assert Join(Runs(Rename(w, rules))) == Rename(w, rules);
    assert RenamedRuns(rules, [w]) == [Renamed(rules, w)];
  }

  predicate Listed(rules: seq<Rule>, w: string) {
    exists i :: 0 <= i < |rules| && rules[i].name == w
  }

  predicate IsNewName(rules: seq<Rule>, w: string) {
    exists i :: 0 <= i < |rules| && rules[i].newName == w
  }

  lemma {:induction false} UnlistedStays(rules: seq<Rule>, w: string)
    requires !Listed(rules, w)
    ensures Renamed(rules, w) == w
  {
    if rules != [] {
      var init := rules[..|rules| - 1];
      assert forall i :: 0 <= i < |init| ==> init[i] == rules[i];
      UnlistedStays(init, w);
    }
  }

  // ---------------------------------------------------------------------------
  // Where a word ends
  // ---------------------------------------------------------------------------

  /** What the lines `from..to` do not rename stays. */
  lemma {:induction false} StaysBetween(rules: seq<Rule>, w: string, v: string, from: nat, to: nat)
    requires from <= to <= |rules| && Renamed(rules[..from], w) == v
    requires forall j :: from <= j < to && rules[j].name == v ==> rules[j].newName == v
    ensures Renamed(rules[..to], w) == v
    decreases |rules| - from
  {
    if from < to {
      assert rules[..from + 1][..from] == rules[..from];
      StaysBetween(rules, w, v, from + 1, to);
    }
  }

  /** The first line for `w`, from line `from` on; `|rules|` when there is none. */
  function LineFor(rules: seq<Rule>, w: string, from: nat): (k: nat)
    requires from <= |rules|
    ensures from <= k <= |rules|
    ensures k < |rules| ==> rules[k].name == w
    ensures forall i :: from <= i < k ==> rules[i].name != w
    decreases |rules| - from
  {
    if from == |rules| || rules[from].name == w then from else LineFor(rules, w, from + 1)
  }

  /** The last line of the chain that starts at line `k`, each one linked to the next line
      for its new name. */
  function ChainEnd(rules: seq<Rule>, k: nat): (end: nat)
    requires k < |rules|
    ensures k <= end < |rules|
    decreases |rules| - k
  {
    var next := LineFor(rules, rules[k].newName, k + 1);
    if next < |rules| then ChainEnd(rules, next) else k
  }

  /** The word at the end of the chain that `w` starts, told by the links of the list. */
  function Final(rules: seq<Rule>, w: string): string {
    var k := LineFor(rules, w, 0);
    if k < |rules| then rules[ChainEnd(rules, k)].newName else w
  }

  lemma {:induction false} FollowsChain(rules: seq<Rule>, w: string, k: nat)
    requires k < |rules| && Renamed(rules[..k], w) == rules[k].name
    ensures Renamed(rules, w) == rules[ChainEnd(rules, k)].newName
    decreases |rules| - k
  {
    var v := rules[k].newName;
    var next := LineFor(rules, v, k + 1);
    assert rules[..k + 1][..k] == rules[..k];
    StaysBetween(rules, w, v, k + 1, next);
    if next < |rules| {
      FollowsChain(rules, w, next);
    } else {
      assert rules[..next] == rules;
    }
  }

  /** The loop takes every word to the end of its chain. */
  lemma {:induction false} RenamedIsFinal(rules: seq<Rule>, w: string)
    ensures Renamed(rules, w) == Final(rules, w)
  {
    var k := LineFor(rules, w, 0);
    assert rules[..0] == [];
    StaysBetween(rules, w, w, 0, k);
    if k < |rules| {
      FollowsChain(rules, w, k);
    } else {
      assert rules[..k] == rules;
    }
  }

  // ---------------------------------------------------------------------------
  // Sequential and simultaneous
  // ---------------------------------------------------------------------------

  /** The new name in the first rule for `w`: one look at the list, no repetition. */
  function Lookup(rules: seq<Rule>, w: string): string {
    if rules == [] then w
    else if rules[0].name == w then rules[0].newName
    else Lookup(rules[1..], w)
  }

  function LookupRuns(rules: seq<Rule>, ts: seq<string>): (us: seq<string>)
    ensures |us| == |ts| && forall i :: 0 <= i < |ts| ==> us[i] == Lookup(rules, ts[i])
  {
    seq(|ts|, i requires 0 <= i < |ts| => Lookup(rules, ts[i]))
  }

  function RenameOnce(text: string, rules: seq<Rule>): string {
    Join(LookupRuns(rules, Runs(text)))
  }

  lemma {:induction false} LookupListed(rules: seq<Rule>, w: string)
    ensures Listed(rules, w) ==>
      exists i :: 0 <= i < |rules| && rules[i].name == w && Lookup(rules, w) == rules[i].newName
    ensures !Listed(rules, w) ==> Lookup(rules, w) == w
  {
    if rules != [] {
      LookupListed(rules[1..], w);
      if rules[0].name != w && Listed(rules, w) {
        var i :| 0 <= i < |rules| && rules[i].name == w;
        assert rules[1..][i - 1].name == w;
        var j :| 0 <= j < |rules[1..]| && rules[1..][j].name == w && Lookup(rules[1..], w) == rules[1..][j].newName;
        assert rules[j + 1].name == w;
      }
    }
  }

  lemma {:induction false} LookupOneMore(rules: seq<Rule>, r: Rule, w: string)
    ensures Lookup(rules + [r], w) ==
            if Listed(rules, w) then Lookup(rules, w) else if r.name == w then r.newName else w
  {
    if rules == [] {
      assert ([] + [r])[1..] == [];
    } else {
      LookupOneMore(rules[1..], r, w);
      assert (rules + [r])[1..] == rules[1..] + [r];
      if rules[0].name != w {
        assert Listed(rules, w) ==> Listed(rules[1..], w) by {
          if Listed(rules, w) {
            var i :| 0 <= i < |rules| && rules[i].name == w;
            assert rules[1..][i - 1].name == w;
          }
        }
        assert Listed(rules[1..], w) ==> Listed(rules, w) by {
          if Listed(rules[1..], w) {
            var i :| 0 <= i < |rules[1..]| && rules[1..][i].name == w;
            assert rules[i + 1].name == w;
          }
        }
      }
    }
  }

  /** No new name is the name of a later rule. */
  predicate NoChain(rules: seq<Rule>) {
    forall i, j :: 0 <= i < j < |rules| ==> rules[i].newName != rules[j].name
  }

  lemma {:induction false} NoChainIsLookup(rules: seq<Rule>, w: string)
    requires NoChain(rules)
    ensures Renamed(rules, w) == Lookup(rules, w)
  {
    if rules != [] {
      var init, last := rules[..|rules| - 1], rules[|rules| - 1];
      assert rules == init + [last];
      NoChainIsLookup(init, w);
      LookupOneMore(init, last, w);
      LookupListed(init, w);
    }
  }

  lemma TouchesWord(p: seq<string>, w: string)
    ensures Touches(p, [w]) <==> w in p
  {
    if w in p {
      var d :| 0 <= d < |p| && p[d] == w;
      assert Overlap(p, [w], d);
    }
    if Touches(p, [w]) {
      var d :| Overlap(p, [w], d);
      assert p[d] == [w][d - d];
    }
  }

  /** For words, having no chain is what the order of the rules has to satisfy. */
  lemma NoChainIffOrdered(rules: seq<Rule>)
    requires AllWords(rules)
    ensures NoChain(rules) <==> Ordered(Rewritings(rules))
  {
    var rs := Rewritings(rules);
    forall i, j | 0 <= i < j < |rules|
      ensures rs[i].lhs == rs[j].lhs || !Touches(rs[i].lhs, rs[j].lhs)
      ensures Touches(rs[i].rhs, rs[j].lhs) <==> rules[i].newName == rules[j].name
    {
      WordsDoNotTouch(rules[i], rules[j]);
    }
  }

  /** The shape of the whole list: some pasted names first, then words. It is one single
      pass when both parts are and no listed word is a part of a pasted name, old or new. */
  lemma PastedThenWords(pasted: seq<Rule>, words: seq<Rule>)
    requires Ordered(Rewritings(pasted)) && AllWords(words) && NoChain(words)
    requires forall i, j :: 0 <= i < |pasted| && 0 <= j < |words| ==>
      words[j].name !in Runs(pasted[i].name) && words[j].name !in Runs(pasted[i].newName)
    ensures Ordered(Rewritings(pasted + words))
  {
    NoChainIffOrdered(words);
    var rs := Rewritings(pasted + words);
    assert forall i :: 0 <= i < |pasted| ==> rs[i] == Rewritings(pasted)[i];
    assert forall i :: |pasted| <= i < |rs| ==> rs[i] == Rewritings(words)[i - |pasted|];
    forall i, j | 0 <= i < j < |rs|
      ensures rs[i].lhs == rs[j].lhs || !Touches(rs[i].lhs, rs[j].lhs)
      ensures !Touches(rs[i].rhs, rs[j].lhs)
    {
      if i < |pasted| <= j {
        RunsOfWord(words[j - |pasted|].name);
        TouchesWord(rs[i].lhs, words[j - |pasted|].name);
        TouchesWord(rs[i].rhs, words[j - |pasted|].name);
      }
    }
  }

  /** Among words, no new name can take part in a match when no new name is listed. */
  lemma FreshIsSettled(rules: seq<Rule>)
    requires AllWords(rules) && Fresh(rules)
    ensures AllSymbols(rules) && Ordered(Rewritings(rules)) && AllSettled(rules)
  {
    WordsAreSymbols(rules);
    forall i, j | 0 <= i < |rules| && 0 <= j < |rules| ensures !Touches(Runs(rules[i].newName), Runs(rules[j].name)) {
      WordsDoNotTouch(rules[i], rules[j]);
      assert Listed(rules, rules[j].name);
    }
    forall i, j | 0 <= i < j < |rules| ensures rules[i].newName != rules[j].name {
      assert Listed(rules, rules[j].name);
    }
    NoChainIffOrdered(rules);
  }

  /** Lines with the same name are the same line. */
  predicate Agreeing(rules: seq<Rule>) {
    forall i, j :: 0 <= i < |rules| && 0 <= j < |rules| && rules[i].name == rules[j].name ==> rules[i] == rules[j]
  }

  lemma WordsDoNotTouch(r: Rule, s: Rule)
    requires IsWord(r.name) && IsWord(r.newName) && IsWord(s.name)
    ensures Touches(OnRuns(r).lhs, OnRuns(s).lhs) <==> r.name == s.name
    ensures Touches(OnRuns(r).rhs, OnRuns(s).lhs) <==> r.newName == s.name
  {
    RunsOfWord(r.name);
    RunsOfWord(r.newName);
    RunsOfWord(s.name);
    TouchesWord([r.name], s.name);
    TouchesWord([r.newName], s.name);
  }

  lemma WordsIndependent(rules: seq<Rule>)
    requires AllWords(rules) && Fresh(rules) && Agreeing(rules)
    ensures Independent(multiset(Rewritings(rules)))
  {
    var rs := Rewritings(rules);
    forall r: Rewrite<string>, s: Rewrite<string> | r in multiset(rs) && s in multiset(rs)
      ensures r != s ==> !Touches(r.lhs, s.lhs)
      ensures !Touches(r.rhs, s.lhs)
    {
      assert r in rs && s in rs;
      var i :| 0 <= i < |rs| && rs[i] == r;
      var j :| 0 <= j < |rs| && rs[j] == s;
      WordsDoNotTouch(rules[i], rules[j]);
      assert Listed(rules, rules[j].name);
    }
  }

  /** For words, every reordering of a list whose new names are not listed renames every
      text to the same result. */
  lemma WordsReordered(text: string, rules: seq<Rule>, others: seq<Rule>)
    requires AllWords(rules) && Fresh(rules) && Agreeing(rules) && multiset(rules) == multiset(others)
    ensures Named(rules) && Named(others)
    ensures Rename(text, rules) == Rename(text, others)
  {
    WordsAreSymbols(rules);
    WordsIndependent(rules);
    RenameReordered(text, rules, others);
  }

  ghost predicate SequentialIsOnce(rules: seq<Rule>)
    requires Named(rules)
  {
    forall text :: Rename(text, rules) == RenameOnce(text, rules)
  }

  /** Exactly when the loop over the list is one simultaneous substitution, on every text:
      when the chain of every listed name ends with the new name of its first line. */
  lemma {:induction false} SequentialIsOnceIff(rules: seq<Rule>)
    requires AllWords(rules)
    ensures Named(rules)
    ensures SequentialIsOnce(rules)
       <==> forall i :: 0 <= i < |rules| ==> Final(rules, rules[i].name) == Lookup(rules, rules[i].name)
  {
    WordsAreSymbols(rules);
    if SequentialIsOnce(rules) {
      forall i | 0 <= i < |rules| ensures Final(rules, rules[i].name) == Lookup(rules, rules[i].name) {
        var w := rules[i].name;
        RenamedIsFinal(rules, w);
        RenameWord(w, rules);
        RunsOfWord(w);
        assert LookupRuns(rules, [w]) == [Lookup(rules, w)];
        assert Join([Lookup(rules, w)]) == Lookup(rules, w);
        assert Rename(w, rules) == RenameOnce(w, rules);
      }
    }
    if forall i :: 0 <= i < |rules| ==> Final(rules, rules[i].name) == Lookup(rules, rules[i].name) {
      forall text ensures Rename(text, rules) == RenameOnce(text, rules) {
        LookupEverywhere(text, rules);
      }
    }
  }

  lemma {:induction false} LookupEverywhere(text: string, rules: seq<Rule>)
    requires AllWords(rules)
    requires forall i :: 0 <= i < |rules| ==> Final(rules, rules[i].name) == Lookup(rules, rules[i].name)
    ensures Named(rules) && Rename(text, rules) == RenameOnce(text, rules)
  {
    RenameMapsWords(text, rules);
    forall k | 0 <= k < |Runs(text)| ensures Renamed(rules, Runs(text)[k]) == Lookup(rules, Runs(text)[k]) {
      var w := Runs(text)[k];
      RenamedIsFinal(rules, w);
      if !Listed(rules, w) {
        UnlistedStays(rules, w);
        LookupListed(rules, w);
      }
    }
    assert RenamedRuns(rules, Runs(text)) == LookupRuns(rules, Runs(text));
    assert Join(Runs(Rename(text, rules))) == Rename(text, rules);
  }

  /** A list without chains, repeated lines included, is one simultaneous substitution. */
  lemma NoChainIsOnce(text: string, rules: seq<Rule>)
    requires AllWords(rules) && NoChain(rules)
    ensures Named(rules) && Rename(text, rules) == RenameOnce(text, rules)
  {
    forall i | 0 <= i < |rules| ensures Final(rules, rules[i].name) == Lookup(rules, rules[i].name) {
      RenamedIsFinal(rules, rules[i].name);
      NoChainIsLookup(rules, rules[i].name);
    }
    LookupEverywhere(text, rules);
  }

  // ---------------------------------------------------------------------------
  // Completeness and idempotence
  // ---------------------------------------------------------------------------

  /** No listed name is a word of any renamed text. */
  ghost predicate Complete(rules: seq<Rule>)
    requires Named(rules)
  {
    forall text, w :: w in Runs(Rename(text, rules)) ==> !Listed(rules, w)
  }

  /** Exactly when no listed name is left in any text: when no chain that a listed name
      starts ends with a listed name. */
  lemma {:induction false} CompleteIff(rules: seq<Rule>)
    requires AllWords(rules)
    ensures Named(rules)
    ensures Complete(rules) <==> forall i :: 0 <= i < |rules| ==> !Listed(rules, Final(rules, rules[i].name))
  {
    WordsAreSymbols(rules);
    if Complete(rules) {
      forall i | 0 <= i < |rules| ensures !Listed(rules, Final(rules, rules[i].name)) {
        var w := rules[i].name;
        RenamedIsFinal(rules, w);
        RenameMapsWords(w, rules);
        RunsOfWord(w);
        assert RenamedRuns(rules, [w])[0] in Runs(Rename(w, rules));
      }
    }
    if forall i :: 0 <= i < |rules| ==> !Listed(rules, Final(rules, rules[i].name)) {
      forall text, w | w in Runs(Rename(text, rules)) ensures !Listed(rules, w) {
        RenameMapsWords(text, rules);
        var k :| 0 <= k < |Runs(text)| && RenamedRuns(rules, Runs(text))[k] == w;
        RenamedIsFinal(rules, Runs(text)[k]);
        if !Listed(rules, Runs(text)[k]) {
          UnlistedStays(rules, Runs(text)[k]);
        }
      }
    }
  }

  /** The chain of `w` ends with a word that the list leads back to itself, or not on. */
  predicate Ends(rules: seq<Rule>, w: string) {
    Final(rules, Final(rules, w)) == Final(rules, w)
  }

  /** Exactly when a second run changes no text: when the chain of a listed name ends with
      a word whose own chain ends with that word. */
  lemma {:induction false} IdempotentIff(rules: seq<Rule>)
    requires AllWords(rules)
    ensures Named(rules)
    ensures Idempotent(rules) <==> forall i :: 0 <= i < |rules| ==> Ends(rules, rules[i].name)
  {
    WordsAreSymbols(rules);
    if Idempotent(rules) {
      forall i | 0 <= i < |rules| ensures Ends(rules, rules[i].name) {
        var w := rules[i].name;
        RenamedKind(rules, w);
        RenameWord(w, rules);
        RenameWord(Renamed(rules, w), rules);
        assert Rename(Rename(w, rules), rules) == Rename(w, rules);
        RenamedIsFinal(rules, w);
        RenamedIsFinal(rules, Final(rules, w));
      }
    }
    if forall i :: 0 <= i < |rules| ==> Ends(rules, rules[i].name) {
      forall text ensures Rename(Rename(text, rules), rules) == Rename(text, rules) {
        RenameAgain(text, rules);
      }
    }
  }

  lemma {:induction false} RenameAgain(text: string, rules: seq<Rule>)
    requires AllWords(rules) && forall i :: 0 <= i < |rules| ==> Ends(rules, rules[i].name)
    ensures Named(rules) && Rename(Rename(text, rules), rules) == Rename(text, rules)
  {
    RenameMapsWords(text, rules);
    RenameMapsWords(Rename(text, rules), rules);
    forall k | 0 <= k < |Runs(text)|
      ensures Renamed(rules, Renamed(rules, Runs(text)[k])) == Renamed(rules, Runs(text)[k])
    {
      var w := Runs(text)[k];
      RenamedIsFinal(rules, w);
      RenamedIsFinal(rules, Final(rules, w));
      if !Listed(rules, w) { UnlistedStays(rules, w); }
    }
    SameRunsSameText(Rename(Rename(text, rules), rules), Rename(text, rules));
  }

  /** No new name is itself a listed name. */
  predicate Fresh(rules: seq<Rule>) {
    forall i :: 0 <= i < |rules| ==> !Listed(rules, rules[i].newName)
  }

  /** Every line of the list has one column, so every new name is the prefixed name. */
  predicate Prefixed(rules: seq<Rule>) {
    forall i :: 0 <= i < |rules| ==> rules[i].newName == FNC_PREFIX + rules[i].name
  }

  lemma FinalIsNew(rules: seq<Rule>, i: nat)
    requires i < |rules|
    ensures exists k :: 0 <= k < |rules| && Final(rules, rules[i].name) == rules[k].newName
  {
    assert LineFor(rules, rules[i].name, 0) < |rules|;
  }

  lemma {:induction false} FreshIsComplete(rules: seq<Rule>)
    requires AllWords(rules) && Fresh(rules)
    ensures Named(rules) && NoChain(rules) && Complete(rules) && Idempotent(rules)
  {
    WordsAreSymbols(rules);
    forall i | 0 <= i < |rules| ensures !Listed(rules, Final(rules, rules[i].name)) && Ends(rules, rules[i].name) {
      FinalIsNew(rules, i);
    }
    CompleteIff(rules);
    IdempotentIff(rules);
  }

  /** With the default prefix, the list is complete and idempotent when no listed name is
      the prefix followed by another listed name. The new names are words because `_` is a
      word character. */
  lemma {:induction false} PrefixedIsComplete(rules: seq<Rule>)
    requires Prefixed(rules) && forall i :: 0 <= i < |rules| ==> IsWord(rules[i].name)
    requires forall i, j :: 0 <= i < |rules| && 0 <= j < |rules| ==> rules[i].name != FNC_PREFIX + rules[j].name
    ensures AllWords(rules) && Named(rules) && Complete(rules) && Idempotent(rules)
  {
    forall i | 0 <= i < |rules| ensures IsWord(FNC_PREFIX + rules[i].name) {
      PrefixedWord(rules[i].name);
    }
    FreshIsComplete(rules);
  }

  lemma PrefixedWord(w: string)
    requires IsWord(w)
    ensures IsWord(FNC_PREFIX + w)
  {
    var v := FNC_PREFIX + w;
    forall k | 0 <= k < |v| ensures IsWordChar(v[k]) {
      if 3 <= k { assert v[k] == w[k - 3]; }
    }
  }

  lemma FreshRenames(rules: seq<Rule>, w: string)
    requires AllWords(rules) && Fresh(rules)
    ensures Renamed(rules, w) == Lookup(rules, w)
    ensures Listed(rules, w) ==> !Listed(rules, Renamed(rules, w)) && Renamed(rules, w) != w
    ensures !Listed(rules, w) ==> Renamed(rules, w) == w
  {
    FreshIsComplete(rules);
    NoChainIsLookup(rules, w);
    LookupListed(rules, w);
  }

  // ---------------------------------------------------------------------------
  // One word in its place
  // ---------------------------------------------------------------------------

  /** A word of letters, digits and underscores between other characters of ASCII. */
  predicate StandsAlone(a: string, w: string, b: string) {
    && w != ""
    && (forall k :: 0 <= k < |w| ==>
          var c := w[k]; 'a' <= c <= 'z' || 'A' <= c <= 'Z' || '0' <= c <= '9' || c == '_')
    && (a == "" || var c := a[|a| - 1];
          c <= '\U{7F}' && !('a' <= c <= 'z' || 'A' <= c <= 'Z' || '0' <= c <= '9' || c == '_'))
    && (b == "" || var c := b[0];
          c <= '\U{7F}' && !('a' <= c <= 'z' || 'A' <= c <= 'Z' || '0' <= c <= '9' || c == '_'))
  }

  lemma AloneIsRun(a: string, w: string, b: string)
    requires StandsAlone(a, w, b)
    ensures IsWord(w) && Runs(a + (w + b)) == Runs(a) + ([w] + Runs(b))
  {
    RunsOfWord(w);
    RunsAppend(w, b);
    RunsAppend(a, w + b);
  }

  lemma RenamedRunsAppend(rules: seq<Rule>, a: seq<string>, b: seq<string>)
    ensures RenamedRuns(rules, a + b) == RenamedRuns(rules, a) + RenamedRuns(rules, b)
  {
  }

  lemma RenameJoins(text: string, rules: seq<Rule>)
    requires AllWords(rules)
    ensures Named(rules) && Rename(text, rules) == Join(RenamedRuns(rules, Runs(text)))
  {
    RenameMapsWords(text, rules);
    assert Join(Runs(Rename(text, rules))) == Rename(text, rules);
  }

  /** Such a word is renamed by itself, and what stands around it as if it were not there. */
  lemma RenameAround(a: string, w: string, b: string, rules: seq<Rule>)
    requires AllWords(rules) && StandsAlone(a, w, b)
    ensures Named(rules)
    ensures Rename(a + (w + b), rules) == Rename(a, rules) + (Renamed(rules, w) + Rename(b, rules))
  {
    RenameJoins(a, rules);
    RenameJoins(b, rules);
    RenameJoins(a + (w + b), rules);
    AloneIsRun(a, w, b);
    RenamedRunsAppend(rules, Runs(a), [w] + Runs(b));
    RenamedRunsAppend(rules, [w], Runs(b));
    assert RenamedRuns(rules, [w]) == [Renamed(rules, w)];
    JoinAppend(RenamedRuns(rules, Runs(a)), [Renamed(rules, w)] + RenamedRuns(rules, Runs(b)));
    assert ([Renamed(rules, w)] + RenamedRuns(rules, Runs(b)))[1..] == RenamedRuns(rules, Runs(b));
  }

  /** A listed word that stands alone gets the new name of its first line, when no later
      line lists that one. */
  lemma ListedAlone(a: string, w: string, b: string, rules: seq<Rule>, i: nat)
    requires w != "" && forall k :: 0 <= k < |w| ==>
      var c := w[k]; 'a' <= c <= 'z' || 'A' <= c <= 'Z' || '0' <= c <= '9' || c == '_'
    requires a != "" ==>
      var c := a[|a| - 1];
      c <= '\U{7F}' && !('a' <= c <= 'z' || 'A' <= c <= 'Z' || '0' <= c <= '9' || c == '_')
    requires b != "" ==>
      var c := b[0];
      c <= '\U{7F}' && !('a' <= c <= 'z' || 'A' <= c <= 'Z' || '0' <= c <= '9' || c == '_')
    requires AllWords(rules) && i < |rules| && rules[i].name == w
    requires forall j :: 0 <= j < i ==> rules[j].name != w
    requires forall j :: i < j < |rules| ==> rules[j].name != rules[i].newName
    ensures Named(rules)
    ensures Rename(a + (w + b), rules) == Rename(a, rules) + (rules[i].newName + Rename(b, rules))
  {
    RenameAround(a, w, b, rules);
    assert rules[..0] == [] && rules[..i + 1][..i] == rules[..i] && rules[..|rules|] == rules;
    StaysBetween(rules, w, w, 0, i);
    StaysBetween(rules, w, rules[i].newName, i + 1, |rules|);
  }

  /** A word that is not listed itself stays, whatever listed name it has inside. */
  lemma UnlistedAlone(a: string, w: string, b: string, rules: seq<Rule>)
    requires w != "" && forall k :: 0 <= k < |w| ==>
      var c := w[k]; 'a' <= c <= 'z' || 'A' <= c <= 'Z' || '0' <= c <= '9' || c == '_'
    requires a != "" ==>
      var c := a[|a| - 1];
      c <= '\U{7F}' && !('a' <= c <= 'z' || 'A' <= c <= 'Z' || '0' <= c <= '9' || c == '_')
    requires b != "" ==>
      var c := b[0];
      c <= '\U{7F}' && !('a' <= c <= 'z' || 'A' <= c <= 'Z' || '0' <= c <= '9' || c == '_')
    requires AllWords(rules) && forall j :: 0 <= j < |rules| ==> rules[j].name != w
    ensures Named(rules)
    ensures Rename(a + (w + b), rules) == Rename(a, rules) + (w + Rename(b, rules))
  {
    RenameAround(a, w, b, rules);
    UnlistedStays(rules, w);
  }

  const SCALES := [Rule("NV12Scale", "rs_NV12Scale"), Rule("Scale", "rs_Scale")]

  lemma ScalesAreWords()
    ensures AllWords(SCALES)
  {
  }

  lemma ListedText(w: string, rules: seq<Rule>, i: nat)
    requires AllWords(rules) && StandsAlone("", w, "") && i < |rules| && rules[i].name == w
    requires forall j :: 0 <= j < i ==> rules[j].name != w
    requires forall j :: i < j < |rules| ==> rules[j].name != rules[i].newName
    ensures Named(rules) && Rename(w, rules) == rules[i].newName
  {
    ListedAlone("", w, "", rules, i);
    RenameJoins("", rules);
    assert "" + (w + "") == w;
    assert "" + (rules[i].newName + "") == rules[i].newName;
  }

  /** The digits belong to the name: `Scale` is not found inside `NV12Scale`. */
  lemma NameInsideName()
    ensures Named(SCALES) && Rename("NV12Scale", SCALES) == "rs_NV12Scale"
  {
    ScalesAreWords();
    ListedText("NV12Scale", SCALES, 0);
  }

  // ---------------------------------------------------------------------------
  // Lists that name each word once
  // ---------------------------------------------------------------------------

  predicate DistinctNames(rules: seq<Rule>) {
    forall i, j :: 0 <= i < j < |rules| ==> rules[i].name != rules[j].name
  }

  lemma OwnLine(rules: seq<Rule>, k: nat)
    requires DistinctNames(rules) && k < |rules|
    ensures LineFor(rules, rules[k].name, 0) == k
  {
  }

  /** A name that stands at the end was put there by its own line or a later one. */
  lemma PutThere(rules: seq<Rule>, w: string, k: nat) returns (i: nat)
    requires k < |rules| && Final(rules, w) == rules[k].name && Listed(rules, w)
    ensures k <= i < |rules| && rules[i].newName == rules[k].name
  {
    i := ChainEnd(rules, LineFor(rules, w, 0));
    LastLink(rules, LineFor(rules, w, 0));
  }

  /** No line behind the end of a chain lists the last new name. */
  lemma {:induction false} LastLink(rules: seq<Rule>, k: nat)
    requires k < |rules|
    ensures var end := ChainEnd(rules, k);
      forall i :: end < i < |rules| ==> rules[i].name != rules[end].newName
    decreases |rules| - k
  {
    var next := LineFor(rules, rules[k].newName, k + 1);
    if next < |rules| { LastLink(rules, next); }
  }

  /** A name put behind its own line is there at the end. */
  lemma StaysToTheEnd(rules: seq<Rule>, k: nat, i: nat)
    requires DistinctNames(rules) && k <= i < |rules| && rules[i].newName == rules[k].name
    ensures Final(rules, rules[i].name) == rules[k].name
  {
    OwnLine(rules, i);
    assert LineFor(rules, rules[k].name, i + 1) == |rules|;
  }

  /** Exactly when no listed name is left in any text: when no new name is the name of its
      own line or an earlier one. */
  lemma {:induction false} DistinctCompleteIff(rules: seq<Rule>)
    requires AllWords(rules)
    requires forall i, j :: 0 <= i < j < |rules| ==> rules[i].name != rules[j].name
    ensures Named(rules)
    ensures Complete(rules) <==> forall i, k :: 0 <= k <= i < |rules| ==> rules[i].newName != rules[k].name
  {
    CompleteIff(rules);
    if Complete(rules) {
      forall i, k | 0 <= k <= i < |rules| ensures rules[i].newName != rules[k].name {
        if rules[i].newName == rules[k].name {
          assert Listed(rules, rules[k].name);
          StaysToTheEnd(rules, k, i);
        }
      }
    }
    if forall i, k :: 0 <= k <= i < |rules| ==> rules[i].newName != rules[k].name {
      forall i | 0 <= i < |rules| ensures !Listed(rules, Final(rules, rules[i].name)) {
        if k :| 0 <= k < |rules| && rules[k].name == Final(rules, rules[i].name) {
          var m := PutThere(rules, rules[i].name, k);
        }
      }
    }
  }

  /** Line `i` gives the name of line `k` to words that have passed line `k` already. */
  predicate PutsBack(rules: seq<Rule>, i: nat, k: nat) {
    k <= i < |rules| && rules[i].newName == rules[k].name
  }

  /** The chain that starts at line `k` leads back to the name of that line. */
  predicate LeadsBack(rules: seq<Rule>, k: nat)
    requires k < |rules|
  {
    rules[ChainEnd(rules, k)].newName == rules[k].name
  }

  lemma BackEnds(rules: seq<Rule>, i: nat)
    requires i < |rules| && forall i: nat, k: nat :: PutsBack(rules, i, k) ==> LeadsBack(rules, k)
    ensures Ends(rules, rules[i].name)
  {
    var k := LineFor(rules, Final(rules, rules[i].name), 0);
    if k < |rules| {
      var m := PutThere(rules, rules[i].name, k);
      assert PutsBack(rules, m, k);
    }
  }

  /** Exactly when a second run changes no text: when the lines that put a name back behind
      its own line do so only for names whose chain leads back to them. */
  lemma {:induction false} DistinctIdempotentIff(rules: seq<Rule>)
    requires AllWords(rules)
    requires forall i, j :: 0 <= i < j < |rules| ==> rules[i].name != rules[j].name
    ensures Named(rules)
    ensures Idempotent(rules) <==> forall i: nat, k: nat :: PutsBack(rules, i, k) ==> LeadsBack(rules, k)
  {
    IdempotentIff(rules);
    if Idempotent(rules) {
      forall i: nat, k: nat | PutsBack(rules, i, k) ensures LeadsBack(rules, k) {
        StaysToTheEnd(rules, k, i);
        OwnLine(rules, k);
      }
    }
    if forall i: nat, k: nat :: PutsBack(rules, i, k) ==> LeadsBack(rules, k) {
      forall i | 0 <= i < |rules| ensures Ends(rules, rules[i].name) {
        BackEnds(rules, i);
      }
    }
  }

  /** No new name is renamed by a later line, unless that line keeps it. */
  predicate ChainsEnd(rules: seq<Rule>) {
    forall i, j :: 0 <= i < j < |rules| && rules[i].newName == rules[j].name ==> rules[j].newName == rules[j].name
  }

  lemma LookupDistinct(rules: seq<Rule>, i: nat)
    requires DistinctNames(rules) && i < |rules|
    ensures Lookup(rules, rules[i].name) == rules[i].newName
  {
    LookupListed(rules, rules[i].name);
    assert Listed(rules, rules[i].name);
  }

  lemma KeepsItself(rules: seq<Rule>, k: nat)
    requires DistinctNames(rules) && k < |rules| && rules[k].newName == rules[k].name
    ensures ChainEnd(rules, k) == k
  {
    assert LineFor(rules, rules[k].newName, k + 1) == |rules|;
  }

  /** Following a chain to its last link, some name does not end as its own new name. */
  lemma {:induction false} ChainMissesLookup(rules: seq<Rule>, i: nat, j: nat) returns (k: nat)
    requires DistinctNames(rules) && i < j < |rules|
    requires rules[i].newName == rules[j].name && rules[j].newName != rules[j].name
    ensures k < |rules| && Final(rules, rules[k].name) != rules[k].newName
    decreases |rules| - j
  {
    var m := LineFor(rules, rules[j].newName, j + 1);
    if m < |rules| && rules[m].newName != rules[m].name {
      k := ChainMissesLookup(rules, j, m);
    } else {
      k := i;
      OwnLine(rules, i);
      if m < |rules| { KeepsItself(rules, m); }
      assert ChainEnd(rules, j) == if m < |rules| then m else j;
      assert LineFor(rules, rules[i].newName, i + 1) == j;
    }
  }

  lemma KeptEnds(rules: seq<Rule>, i: nat)
    requires DistinctNames(rules) && ChainsEnd(rules) && i < |rules|
    ensures Final(rules, rules[i].name) == rules[i].newName
  {
    OwnLine(rules, i);
    var next := LineFor(rules, rules[i].newName, i + 1);
    if next < |rules| { KeepsItself(rules, next); }
  }

  /** Exactly when the loop over the list is one simultaneous substitution on every text. */
  lemma {:induction false} DistinctOnceIff(rules: seq<Rule>)
    requires AllWords(rules)
    requires forall i, j :: 0 <= i < j < |rules| ==> rules[i].name != rules[j].name
    ensures Named(rules)
    ensures SequentialIsOnce(rules) <==> ChainsEnd(rules)
  {
    SequentialIsOnceIff(rules);
    if ChainsEnd(rules) {
      forall i | 0 <= i < |rules| ensures Final(rules, rules[i].name) == Lookup(rules, rules[i].name) {
        LookupDistinct(rules, i);
        KeptEnds(rules, i);
      }
    } else {
      var i, j :| 0 <= i < j < |rules| && rules[i].newName == rules[j].name && rules[j].newName != rules[j].name;
      var k := ChainMissesLookup(rules, i, j);
      LookupDistinct(rules, k);
    }
  }

  const FORWARD := [Rule("a", "b"), Rule("b", "c")]
  const BACKWARD := [Rule("b", "c"), Rule("a", "b")]

  /** The loop over `a` to `b`, `b` to `c` is not one substitution: `a` becomes `c`. */
  lemma ForwardChain()
    ensures AllWords(FORWARD) && Named(FORWARD) && !SequentialIsOnce(FORWARD)
  {
    DistinctOnceIff(FORWARD);
    assert FORWARD[0].newName == FORWARD[1].name && FORWARD[1].newName != FORWARD[1].name;
  }

  /** The other way round the loop leaves a listed name, which a second run renames. */
  lemma BackwardChain()
    ensures AllWords(BACKWARD) && Named(BACKWARD) && !Complete(BACKWARD) && !Idempotent(BACKWARD)
  {
    DistinctCompleteIff(BACKWARD);
    DistinctIdempotentIff(BACKWARD);
    assert PutsBack(BACKWARD, 1, 0);
    assert LineFor(BACKWARD, "c", 1) == 2;
  }
}
