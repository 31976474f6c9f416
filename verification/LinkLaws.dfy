/** What renaming by a list of words keeps across the files of a tree: which words are the
    same word. */
module LinkLaws {
  import opened Words
  import opened Rules
  import opened WordLaws

  // ---------------------------------------------------------------------------
  // Links between files
  // ---------------------------------------------------------------------------

  /** `w` is a word, or a separator run, of one of the files. */
  predicate InFiles(files: seq<string>, w: string) {
    exists f :: 0 <= f < |files| && w in Runs(files[f])
  }

  /** Run `i` of `a` and run `j` of `b` are equal after the renaming exactly when they
      were equal before. */
  ghost predicate LinkKept(a: string, i: nat, b: string, j: nat, rules: seq<Rule>)
    requires Named(rules)
  {
    var a', b' := Runs(Rename(a, rules)), Runs(Rename(b, rules));
    i < |Runs(a)| && j < |Runs(b)| ==>
      i < |a'| && j < |b'| && (a'[i] == b'[j] <==> Runs(a)[i] == Runs(b)[j])
  }

  /** `LinkKept`, for all runs of all files. */
  ghost predicate LinksKept(files: seq<string>, rules: seq<Rule>)
    requires Named(rules)
  {
    forall f, g, i: nat, j: nat :: 0 <= f < |files| && 0 <= g < |files| ==> LinkKept(files[f], i, files[g], j, rules)
  }

  /** The new name of `v` is the new name of `w`, or is `w` and `w` keeps its name. */
  predicate Captures(rules: seq<Rule>, v: string, w: string) {
    v != w && Listed(rules, v) && Lookup(rules, v) == if Listed(rules, w) then Lookup(rules, w) else w
  }

  lemma CapturesIff(rules: seq<Rule>, v: string, w: string)
    requires v != w
    ensures Captures(rules, v, w) || Captures(rules, w, v) <==> Lookup(rules, v) == Lookup(rules, w)
  {
    LookupListed(rules, v);
    LookupListed(rules, w);
  }

  /** The listed names found in the files get names of their own: different from each
      other, and not a word of the files already. */
  ghost predicate NoCapture(files: seq<string>, rules: seq<Rule>) {
    forall v, w :: InFiles(files, v) && InFiles(files, w) ==> !Captures(rules, v, w)
  }

  lemma LinkKeptWhen(a: string, i: nat, b: string, j: nat, rules: seq<Rule>)
    requires AllWords(rules)
    requires i < |Runs(a)| && j < |Runs(b)| && Runs(a)[i] != Runs(b)[j] ==>
      Renamed(rules, Runs(a)[i]) != Renamed(rules, Runs(b)[j])
    ensures Named(rules) && LinkKept(a, i, b, j, rules)
  {
    RenameMapsWords(a, rules);
    RenameMapsWords(b, rules);
  }

  lemma PlaceOfRun(files: seq<string>, w: string) returns (f: nat, i: nat)
    requires InFiles(files, w)
    ensures f < |files| && i < |Runs(files[f])| && Runs(files[f])[i] == w
  {
    f :| 0 <= f < |files| && w in Runs(files[f]);
    i :| 0 <= i < |Runs(files[f])| && Runs(files[f])[i] == w;
  }

  lemma KeptRenamesApart(a: string, i: nat, b: string, j: nat, rules: seq<Rule>)
    requires AllWords(rules) && Named(rules) && LinkKept(a, i, b, j, rules)
    requires i < |Runs(a)| && j < |Runs(b)| && Runs(a)[i] != Runs(b)[j]
    ensures Renamed(rules, Runs(a)[i]) != Renamed(rules, Runs(b)[j])
  {
    RenameMapsWords(a, rules);
    RenameMapsWords(b, rules);
  }

  /** Without chains, one word captures another, or the other the one, exactly when they
      end as the same word. */
  lemma CapturesRenamed(rules: seq<Rule>, v: string, w: string)
    requires NoChain(rules) && v != w
    ensures Captures(rules, v, w) || Captures(rules, w, v) <==> Renamed(rules, v) == Renamed(rules, w)
  {
    NoChainIsLookup(rules, v);
    NoChainIsLookup(rules, w);
    CapturesIff(rules, v, w);
  }

  /** Headers and sources keep referring to the same things exactly when no new name
      captures another word of the tree. */
  lemma LinksKeptIff(files: seq<string>, rules: seq<Rule>)
    requires AllWords(rules) && NoChain(rules)
    ensures Named(rules)
    ensures LinksKept(files, rules) <==> NoCapture(files, rules)
  {
    WordsAreSymbols(rules);
    if NoCapture(files, rules) {
      forall f, g, i: nat, j: nat | 0 <= f < |files| && 0 <= g < |files|
        ensures LinkKept(files[f], i, files[g], j, rules)
      {
        if i < |Runs(files[f])| && j < |Runs(files[g])| && Runs(files[f])[i] != Runs(files[g])[j] {
          CapturesRenamed(rules, Runs(files[f])[i], Runs(files[g])[j]);
        }
        LinkKeptWhen(files[f], i, files[g], j, rules);
      }
    }
    if LinksKept(files, rules) {
      forall v, w | InFiles(files, v) && InFiles(files, w) ensures !Captures(rules, v, w) {
        if v != w {
          var f, i := PlaceOfRun(files, v);
          var g, j := PlaceOfRun(files, w);
          KeptRenamesApart(files[f], i, files[g], j, rules);
          CapturesRenamed(rules, v, w);
        }
      }
    }
  }

  /** No listed word of the tree stands beside its own prefixed form, unless that one is
      renamed as well. */
  ghost predicate NoPrefixedTwin(files: seq<string>, rules: seq<Rule>) {
    forall i :: 0 <= i < |rules| && InFiles(files, rules[i].name) && InFiles(files, FNC_PREFIX + rules[i].name) ==>
      Listed(rules, FNC_PREFIX + rules[i].name)
  }

  lemma PrefixedCaptures(rules: seq<Rule>, v: string, w: string)
    requires Prefixed(rules)
    ensures Captures(rules, v, w) <==> Listed(rules, v) && !Listed(rules, w) && w == FNC_PREFIX + v
  {
    PrefixedLookup(rules, v);
    PrefixedLookup(rules, w);
    assert (FNC_PREFIX + v)[3..] == v && (FNC_PREFIX + w)[3..] == w;
  }

  /** The default prefix never gives two names one new name, so only a word of the tree
      that already carries the prefix can be captured. */
  lemma PrefixedLinksKeptIff(files: seq<string>, rules: seq<Rule>)
    requires AllWords(rules) && NoChain(rules) && Prefixed(rules)
    ensures Named(rules)
    ensures LinksKept(files, rules) <==> NoPrefixedTwin(files, rules)
  {
    LinksKeptIff(files, rules);
    if NoPrefixedTwin(files, rules) {
      forall v, w | InFiles(files, v) && InFiles(files, w) ensures !Captures(rules, v, w) {
        PrefixedCaptures(rules, v, w);
      }
    }
    if NoCapture(files, rules) {
      forall i | 0 <= i < |rules| && InFiles(files, rules[i].name) && InFiles(files, FNC_PREFIX + rules[i].name)
        ensures Listed(rules, FNC_PREFIX + rules[i].name)
      {
        assert Listed(rules, rules[i].name);
        PrefixedCaptures(rules, rules[i].name, FNC_PREFIX + rules[i].name);
      }
    }
  }

  // ---------------------------------------------------------------------------
  // Lists with chains
  // ---------------------------------------------------------------------------

  /** Different names get different new names. */
  predicate Injective(rules: seq<Rule>) {
    forall i, j :: 0 <= i < |rules| && 0 <= j < |rules| && rules[i].newName == rules[j].newName ==>
      rules[i].name == rules[j].name
  }

  /** The words that `w` passes through on its way down the list. */
  function History(rules: seq<Rule>, w: string): set<string> {
    if rules == [] then {w} else History(rules[..|rules| - 1], w) + {Renamed(rules, w)}
  }

  lemma {:induction false} EndsInHistory(rules: seq<Rule>, w: string)
    ensures w in History(rules, w) && Renamed(rules, w) in History(rules, w)
  {
    if rules != [] {
      EndsInHistory(rules[..|rules| - 1], w);
    }
  }

  /** Every word of the history, but the first, is the new name of a word before it. */
  lemma {:induction false} PassedThrough(rules: seq<Rule>, w: string, x: string)
    requires x in History(rules, w) && x != w
    ensures exists k :: 0 <= k < |rules| && rules[k].newName == x && rules[k].name in History(rules, w)
  {
    if rules != [] {
      var init, last := rules[..|rules| - 1], rules[|rules| - 1];
      EndsInHistory(init, w);
      if x in History(init, w) {
        PassedThrough(init, w, x);
        var k :| 0 <= k < |init| && init[k].newName == x && init[k].name in History(init, w);
        assert rules[k] == init[k];
      } else {
        assert rules[|rules| - 1].newName == x && last.name in History(init, w);
      }
    }
  }

  /** The last line does not lead the way of `v` into that of `w`. */
  lemma LastStaysApart(rules: seq<Rule>, v: string, w: string)
    requires rules != [] && Injective(rules) && !IsNewName(rules, w)
    requires History(rules[..|rules| - 1], v) !! History(rules[..|rules| - 1], w)
    ensures Renamed(rules, v) !in History(rules[..|rules| - 1], w)
  {
    var init, last := rules[..|rules| - 1], rules[|rules| - 1];
    EndsInHistory(init, v);
    if Renamed(rules, v) in History(init, w) {
      assert Renamed(rules, v) == last.newName && last.name in History(init, v);
      assert IsNewName(rules, last.newName);
      PassedThrough(init, w, last.newName);
    }
  }

  lemma {:induction false} HistoriesApart(rules: seq<Rule>, v: string, w: string)
    requires Injective(rules) && v != w && !IsNewName(rules, v) && !IsNewName(rules, w)
    ensures History(rules, v) !! History(rules, w)
  {
    if rules != [] {
      var init, last := rules[..|rules| - 1], rules[|rules| - 1];
      assert forall k :: 0 <= k < |init| ==> init[k] == rules[k];
      HistoriesApart(init, v, w);
      LastStaysApart(rules, v, w);
      LastStaysApart(rules, w, v);
      EndsInHistory(init, v);
      EndsInHistory(init, w);
    }
  }

  /** Whatever chains the list has: when different names get different new names, and no
      new name is a word of the files, every link is kept. */
  lemma InjectiveKeepsLinks(files: seq<string>, rules: seq<Rule>)
    requires AllWords(rules)
    requires forall i, j :: 0 <= i < |rules| && 0 <= j < |rules| && rules[i].newName == rules[j].newName ==>
      rules[i].name == rules[j].name
    requires forall i :: 0 <= i < |rules| ==> !InFiles(files, rules[i].newName)
    ensures Named(rules) && LinksKept(files, rules)
  {
    WordsAreSymbols(rules);
    forall f, g, i: nat, j: nat | 0 <= f < |files| && 0 <= g < |files|
      ensures LinkKept(files[f], i, files[g], j, rules)
    {
      if i < |Runs(files[f])| && j < |Runs(files[g])| && Runs(files[f])[i] != Runs(files[g])[j] {
        var v, w := Runs(files[f])[i], Runs(files[g])[j];
        assert InFiles(files, v) && InFiles(files, w);
        HistoriesApart(rules, v, w);
        EndsInHistory(rules, v);
        EndsInHistory(rules, w);
      }
      LinkKeptWhen(files[f], i, files[g], j, rules);
    }
  }

  lemma PrefixedLookup(rules: seq<Rule>, w: string)
    requires Prefixed(rules)
    ensures Listed(rules, w) ==> Lookup(rules, w) == FNC_PREFIX + w
  {
    LookupListed(rules, w);
  }
}
