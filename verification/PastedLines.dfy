/** The six lines at the head of the list, whose names are held together by `##`. */
module PastedLines {
  import opened Words
  import opened Wrappers
  import opened Rewriting
  import opened Scanner
  import opened Rules
  import opened RenameLaws
  import opened WordLaws
  import opened UnitLaws
  import opened LinkLaws
  import opened WayBack
  import opened TwoLists
  import opened Bindings

  // ---------------------------------------------------------------------------
  // A rule that pastes the prefix: NAME##ToYRow_C becomes rs_##NAME##ToYRow_C
  // ---------------------------------------------------------------------------

  const PASTE := "rs_##"
  const PASTE_RUNS := ["rs_", "##"]

  lemma RunsAre(s: string, runs: seq<string>)
    requires Alternating(runs) && Join(runs) == s
    ensures Runs(s) == runs
  {
    RunsOfJoin(runs);
  }

  lemma PlainPaste()
    ensures Pastes(PASTE)
  {
    RunsAre(PASTE, PASTE_RUNS);
  }

  /** Text that a symbol can be pasted to: it ends with a separator. */
  ghost predicate Pastes(paste: string) {
    Runs(paste) == PASTE_RUNS && forall i :: 0 <= i < |paste| ==> !IsSpecial(paste[i])
  }

  lemma PasteEnds(paste: string)
    requires Runs(paste) == PASTE_RUNS
    ensures StartsWithWord(paste) && !EndsWithWord(paste)
  {
    JoinEnds(Runs(paste));
    assert StartsWithWord("rs_") && !StartsWithWord("##");
  }

  lemma PasteRuns(paste: string, name: string)
    requires Pastes(paste) && IsSymbol(name)
    ensures Runs(paste + name) == PASTE_RUNS + Runs(name)
  {
    PasteEnds(paste);
    RunsAppend(paste, name);
  }

  lemma PasteIsSymbol(paste: string, name: string)
    requires Pastes(paste) && IsSymbol(name)
    ensures IsSymbol(paste + name)
  {
    PasteEnds(paste);
    forall i | 0 <= i < |paste + name| ensures !IsSpecial((paste + name)[i]) {
      if |paste| <= i { assert (paste + name)[i] == name[i - |paste|]; }
    }
  }

  lemma NotAtHashes(p: seq<string>)
    requires p != [] && StartsWithWord(p[0])
    ensures !(p <= ["##"] + p)
  {
    assert !StartsWithWord("##");
    assert (["##"] + p)[0] == "##";
  }

  lemma NotAtPrefix(p: seq<string>)
    requires p != [] && Unbordered(p) && p != ["rs_"] && |p| != 2
    ensures !(p <= ["rs_", "##"] + p)
  {
    var out := ["rs_", "##"] + p;
    assert out[0] == "rs_" && (|p| == 1 ==> p == [p[0]]);
    if p <= out {
      forall m | 0 <= m < |p| && 0 <= m - 2 < |p| ensures p[m] == p[m - 2] {
        assert p[m] == out[m];
      }
      assert Overlap(p, p, 2);
    }
  }

  lemma NotInPaste(p: seq<string>)
    requires p != [] && StartsWithWord(p[0]) && Unbordered(p) && p != ["rs_"] && |p| != 2
    ensures Subst(["rs_", "##"] + p, p, ["rs_", "##"] + p) == ["rs_", "##"] + (["rs_", "##"] + p)
  {
    var q := ["rs_", "##"];
    NotAtHashes(p);
    NotAtPrefix(p);
    assert q[0..] == q && q[1..] == ["##"];
    SubstSkip(q, p, p, q + p);
    SubstHead(p, [], q + p);
    assert p + [] == p && (q + p) + [] == q + p;
  }

  lemma ReplaceItself(name: string, newName: string)
    requires IsSymbol(name) && IsSymbol(newName)
    ensures Replace(name, name, newName) == newName
  {
    RunsOfSymbol(name);
    ScanReplacesRuns(name, name, newName);
    SubstHead(Runs(name), [], Runs(newName));
    assert Runs(name) + [] == Runs(name) && Runs(newName) + [] == Runs(newName);
    SameRunsSameText(Replace(name, name, newName), newName);
  }

  lemma PastingRepeats(paste: string, name: string)
    requires Pastes(paste) && IsSymbol(name)
    requires Unbordered(Runs(name)) && Runs(name) != ["rs_"] && |Runs(name)| != 2
    ensures Replace(paste + name, name, paste + name) == paste + (paste + name)
  {
    var newName := paste + name;
    PasteIsSymbol(paste, name);
    PasteRuns(paste, name);
    PasteIsSymbol(paste, newName);
    PasteRuns(paste, newName);
    RunsOfSymbol(name);
    NotInPaste(Runs(name));
    ScanReplacesRuns(newName, name, newName);
    SameRunsSameText(Replace(newName, name, newName), paste + newName);
  }

  lemma PastedIsFound(paste: string, name: string)
    requires Pastes(paste) && IsSymbol(name)
    ensures Found(name, paste + name)
  {
    PasteRuns(paste, name);
    assert Runs(paste + name)[2..] == Runs(name);
    FoundIffOccurs(name, paste + name);
  }

  /** A rule that pastes the prefix in front of its name finds its name again in its own
      result, and prefixes it once more on every run. Only the copy-once gate keeps a tree
      from being renamed twice. */
  lemma PastingIsNotIdempotent(name: string)
    requires IsSymbol(name) && Unbordered(Runs(name)) && Runs(name) != ["rs_"] && |Runs(name)| != 2
    ensures Replace(name, name, PASTE + name) == PASTE + name
    ensures Replace(PASTE + name, name, PASTE + name) == PASTE + (PASTE + name)
    ensures Found(name, Replace(name, name, PASTE + name))
  {
    PlainPaste();
    PasteIsSymbol(PASTE, name);
    ReplaceItself(name, PASTE + name);
    PastingRepeats(PASTE, name);
    PastedIsFound(PASTE, name);
  }

  // ---------------------------------------------------------------------------
  // Names of two and of three words
  // ---------------------------------------------------------------------------

  /** Two names, held together. */
  function Hashed(a: string, b: string): (s: string)
    ensures |s| == |a| + 2 + |b|
  {
    a + ("##" + b)
  }

  lemma HashRuns(b: string)
    requires StartsWithWord(b)
    ensures Runs("##" + b) == ["##"] + Runs(b)
  {
    RunsStep("##", b);
  }

  lemma TwoMore<T>(x: T, y: T, a: seq<T>)
    ensures [x] + ([y] + a) == [x, y] + a
  {
  }

  lemma HashedRuns(a: string, b: string)
    requires IsWord(a) && StartsWithWord(b)
    ensures Runs(Hashed(a, b)) == [a, "##"] + Runs(b)
  {
    HashRuns(b);
    RunsStep(a, "##" + b);
    TwoMore(a, "##", Runs(b));
  }

  lemma HashedIsSymbol(a: string, b: string)
    requires IsWord(a) && IsSymbol(b)
    ensures IsSymbol(Hashed(a, b))
  {
    var s := Hashed(a, b);
    forall i | 0 <= i < |s| ensures !IsSpecial(s[i]) {
      if i < |a| {
        assert s[i] == a[i];
      } else if |a| + 2 <= i {
        assert s[i] == b[i - |a| - 2];
      } else {
        assert s[i] == '#';
      }
    }
    assert s[|s| - 1] == b[|b| - 1];
  }

  /** A word in front of a symbol. */
  lemma HashedSymbol(a: string, b: string)
    requires IsWord(a) && IsSymbol(b)
    ensures IsSymbol(Hashed(a, b)) && Runs(Hashed(a, b)) == [a, "##"] + Runs(b)
  {
    HashedRuns(a, b);
    HashedIsSymbol(a, b);
  }

  lemma TwoHashed(a: string, b: string)
    requires IsWord(a) && IsWord(b)
    ensures IsSymbol(Hashed(a, b)) && Runs(Hashed(a, b)) == [a, "##", b]
  {
    RunsOfWord(b);
    WordIsSymbol(b);
    HashedSymbol(a, b);
  }

  lemma FiveRuns<T>(u: T, v: T, x: T, y: T, z: T)
    ensures [u, v] + [x, y, z] == [u, v, x, y, z]
  {
  }

  /** A word in front of a name of two words. */
  lemma ThreeHashed(a: string, two: string, b: string, c: string)
    requires IsWord(a) && IsSymbol(two) && Runs(two) == [b, "##", c]
    ensures IsSymbol(Hashed(a, two)) && Runs(Hashed(a, two)) == [a, "##", b, "##", c]
  {
    HashedSymbol(a, two);
    FiveRuns(a, "##", b, "##", c);
  }

  // ---------------------------------------------------------------------------
  // The six lines
  // ---------------------------------------------------------------------------

  /** The words the six names are made of. */
  const PARTS := [
    "NAME", "ToYRow_C", "ToYJRow_C", "ToUVRow_C", "ToUVJRow_C",
    "kYuv", "kYvu", "name", "Constants", "rs_", "rs_kYuv", "rs_kYvu"
  ]

  /** Twelve different words, of which the last two are longer than the names they replace. */
  predicate PartsDiffer(ws: seq<string>) {
    && |ws| == 12
    && (forall i :: 0 <= i < 12 ==> IsWord(ws[i]))
    && (forall i, j :: 0 <= i < j < 12 ==> ws[i] != ws[j])
    && |ws[5]| < |ws[10]| && |ws[6]| < |ws[11]|
  }

  /** Lines 1 to 4 paste the prefix in front of `NAME##` and a word; lines 5 and 6 prefix
      the first of three words. */
  function PastedRule(ws: seq<string>, i: nat): Rule
    requires |ws| == 12 && i < 6
  {
    if i < 4 then
      Rule(Hashed(ws[0], ws[i + 1]), Hashed(ws[9], Hashed(ws[0], ws[i + 1])))
    else
      Rule(Hashed(ws[i + 1], Hashed(ws[7], ws[8])), Hashed(ws[i + 6], Hashed(ws[7], ws[8])))
  }

  function PastedRules(ws: seq<string>): (rules: seq<Rule>)
    requires |ws| == 12
    ensures |rules| == 6 && forall i :: 0 <= i < 6 ==> rules[i] == PastedRule(ws, i)
  {
    seq(6, i requires 0 <= i < 6 => PastedRule(ws, i))
  }

  function PastedLhs(ws: seq<string>, i: nat): seq<string>
    requires |ws| == 12 && i < 6
  {
    if i < 4 then [ws[0], "##", ws[i + 1]] else [ws[i + 1], "##", ws[7], "##", ws[8]]
  }

  function PastedRhs(ws: seq<string>, i: nat): seq<string>
    requires |ws| == 12 && i < 6
  {
    if i < 4 then [ws[9], "##", ws[0], "##", ws[i + 1]] else [ws[i + 6], "##", ws[7], "##", ws[8]]
  }

  lemma PastedName(ws: seq<string>, i: nat)
    requires PartsDiffer(ws) && i < 6
    ensures IsSymbol(PastedRule(ws, i).name) && Runs(PastedRule(ws, i).name) == PastedLhs(ws, i)
  {
    if i < 4 {
      TwoHashed(ws[0], ws[i + 1]);
    } else {
      TwoHashed(ws[7], ws[8]);
      ThreeHashed(ws[i + 1], Hashed(ws[7], ws[8]), ws[7], ws[8]);
    }
  }

  lemma PastedNewName(ws: seq<string>, i: nat)
    requires PartsDiffer(ws) && i < 6
    ensures IsSymbol(PastedRule(ws, i).newName) && Runs(PastedRule(ws, i).newName) == PastedRhs(ws, i)
  {
    if i < 4 {
      TwoHashed(ws[0], ws[i + 1]);
      ThreeHashed(ws[9], Hashed(ws[0], ws[i + 1]), ws[0], ws[i + 1]);
    } else {
      TwoHashed(ws[7], ws[8]);
      ThreeHashed(ws[i + 6], Hashed(ws[7], ws[8]), ws[7], ws[8]);
    }
  }

  lemma PastedIsLonger(ws: seq<string>, i: nat)
    requires PartsDiffer(ws) && i < 6
    ensures |PastedRule(ws, i).name| < |PastedRule(ws, i).newName|
  {
  }

  /** Two sequences cannot overlap when the last item of either is not in the other. */
  lemma LastApart<T>(n: seq<T>, p: seq<T>)
    requires n != [] && p != [] && n[|n| - 1] !in p && p[|p| - 1] !in n
    ensures !Touches(n, p)
  {
    forall d | -|p| < d < |n| ensures !Overlap(n, p, d) {
      if d + |p| <= |n| {
        assert n[d + |p| - 1] != p[|p| - 1];
      } else {
        assert n[|n| - 1] != p[|n| - 1 - d];
      }
    }
  }

  /** Nor when this holds for the first items. */
  lemma FirstApart<T>(n: seq<T>, p: seq<T>)
    requires n != [] && p != [] && n[0] !in p && p[0] !in n
    ensures !Touches(n, p)
  {
    forall d | -|p| < d < |n| ensures !Overlap(n, p, d) {
      if 0 <= d {
        assert n[d] != p[0];
      } else {
        assert n[0] != p[-d];
      }
    }
  }

  lemma NotSeparator(w: string)
    requires IsWord(w)
    ensures w != "##"
  {
    assert IsWordChar(w[0]);
  }

  /** No two of the names, old or new, of two different lines overlap. */
  lemma PastedApart(ws: seq<string>, i: nat, j: nat)
    requires PartsDiffer(ws) && i < j < 6
    ensures !Touches(PastedLhs(ws, i), PastedLhs(ws, j))
    ensures !Touches(PastedRhs(ws, i), PastedLhs(ws, j))
  {
    NotSeparators(ws);
    if i < 4 {
      LastApart(PastedLhs(ws, i), PastedLhs(ws, j));
      LastApart(PastedRhs(ws, i), PastedLhs(ws, j));
    } else {
      FirstApart(PastedLhs(ws, i), PastedLhs(ws, j));
      FirstApart(PastedRhs(ws, i), PastedLhs(ws, j));
    }
  }

  lemma NewPastedApart(ws: seq<string>, i: nat, j: nat)
    requires PartsDiffer(ws) && i < j < 6
    ensures !Touches(PastedRhs(ws, i), PastedRhs(ws, j))
    ensures !Touches(PastedLhs(ws, i), PastedRhs(ws, j))
  {
    NotSeparators(ws);
    if i < 4 {
      LastApart(PastedRhs(ws, i), PastedRhs(ws, j));
      LastApart(PastedLhs(ws, i), PastedRhs(ws, j));
    } else {
      FirstApart(PastedRhs(ws, i), PastedRhs(ws, j));
      FirstApart(PastedLhs(ws, i), PastedRhs(ws, j));
    }
  }

  lemma NotSeparators(ws: seq<string>)
    requires PartsDiffer(ws)
    ensures forall k :: 0 <= k < 12 ==> ws[k] != "##"
  {
    forall k | 0 <= k < 12 ensures ws[k] != "##" { NotSeparator(ws[k]); }
  }

  lemma FirstOnce<T>(p: seq<T>)
    requires p != [] && p[0] !in p[1..]
    ensures Unbordered(p)
  {
    forall d | 0 < d < |p| ensures !Overlap(p, p, d) {
      assert p[1..][d - 1] == p[d] != p[0] == p[d - d];
    }
  }

  lemma PastedUnbordered(ws: seq<string>, i: nat)
    requires PartsDiffer(ws) && i < 6
    ensures Unbordered(PastedLhs(ws, i)) && Unbordered(PastedRhs(ws, i))
  {
    NotSeparators(ws);
    FirstOnce(PastedLhs(ws, i));
    FirstOnce(PastedRhs(ws, i));
  }

  lemma PastedOnRuns(ws: seq<string>)
    requires PartsDiffer(ws)
    ensures forall i :: 0 <= i < 6 ==> Rewritings(PastedRules(ws))[i] == Rewrite(PastedLhs(ws, i), PastedRhs(ws, i))
    ensures forall i :: 0 <= i < 6 ==>
      Rewritings(Undo(PastedRules(ws)))[i] == Rewrite(PastedRhs(ws, i), PastedLhs(ws, i))
  {
    forall i | 0 <= i < 6 ensures OnRuns(PastedRule(ws, i)) == Rewrite(PastedLhs(ws, i), PastedRhs(ws, i)) {
      PastedName(ws, i);
      PastedNewName(ws, i);
    }
    var rules, undo := PastedRules(ws), Undo(PastedRules(ws));
    forall i | 0 <= i < 6 ensures OnRuns(undo[i]) == Rewrite(PastedRhs(ws, i), PastedLhs(ws, i)) {
      assert OnRuns(PastedRule(ws, i)) == Rewrite(PastedLhs(ws, i), PastedRhs(ws, i));
    }
  }

  /** Different patterns that never overlap leave nothing to agree on. */
  lemma ApartIsConsistent<T>(rs: seq<Rewrite<T>>)
    requires Usable(rs) && forall i :: 0 <= i < |rs| ==> Unbordered(rs[i].lhs)
    requires forall i, j :: 0 <= i < j < |rs| ==> !Touches(rs[i].lhs, rs[j].lhs) && !Touches(rs[i].rhs, rs[j].lhs)
    ensures Consistent(rs)
  {
    forall i, j | 0 <= i < |rs| && 0 <= j < |rs| && rs[i].lhs == rs[j].lhs ensures i == j {
      assert Overlap(rs[i].lhs, rs[j].lhs, 0);
      assert Touches(rs[i].lhs, rs[j].lhs) && Touches(rs[j].lhs, rs[i].lhs);
    }
  }

  lemma PastedAreConsistent(ws: seq<string>)
    requires PartsDiffer(ws)
    ensures Consistent(Rewritings(PastedRules(ws)))
  {
    var rs := Rewritings(PastedRules(ws));
    PastedOnRuns(ws);
    forall i | 0 <= i < |rs| ensures rs[i].lhs != [] && Unbordered(rs[i].lhs) {
      PastedUnbordered(ws, i);
    }
    forall i, j | 0 <= i < j < |rs| ensures !Touches(rs[i].lhs, rs[j].lhs) && !Touches(rs[i].rhs, rs[j].lhs) {
      PastedApart(ws, i, j);
    }
    ApartIsConsistent(rs);
  }

  lemma UndoPastedAreConsistent(ws: seq<string>)
    requires PartsDiffer(ws)
    ensures Consistent(Rewritings(Undo(PastedRules(ws))))
  {
    var rs := Rewritings(Undo(PastedRules(ws)));
    PastedOnRuns(ws);
    forall i | 0 <= i < |rs| ensures rs[i].lhs != [] && Unbordered(rs[i].lhs) {
      PastedUnbordered(ws, i);
    }
    forall i, j | 0 <= i < j < |rs| ensures !Touches(rs[i].lhs, rs[j].lhs) && !Touches(rs[i].rhs, rs[j].lhs) {
      NewPastedApart(ws, i, j);
    }
    ApartIsConsistent(rs);
  }

  lemma PastedAreSymbols(ws: seq<string>)
    requires PartsDiffer(ws)
    ensures AllSymbols(PastedRules(ws)) && AllLonger(PastedRules(ws))
  {
    var rules := PastedRules(ws);
    forall i | 0 <= i < |rules|
      ensures IsSymbol(rules[i].name) && IsSymbol(rules[i].newName) && |rules[i].name| < |rules[i].newName|
    {
      PastedName(ws, i);
      PastedNewName(ws, i);
      PastedIsLonger(ws, i);
    }
  }

  lemma NotInRuns(ws: seq<string>, i: nat, w: string)
    requires |ws| == 12 && i < 6 && w !in ws && w != "##"
    ensures w !in PastedLhs(ws, i) && w !in PastedRhs(ws, i)
  {
  }

  lemma NotAPart(ws: seq<string>, i: nat, w: string)
    requires PartsDiffer(ws) && i < 6 && IsWord(w) && w !in ws
    ensures w !in Runs(PastedRules(ws)[i].name) && w !in Runs(PastedRules(ws)[i].newName)
  {
    NotSeparator(w);
    NotInRuns(ws, i, w);
    PastedName(ws, i);
    PastedNewName(ws, i);
  }

  lemma BothParts(a: seq<Rule>, b: seq<Rule>)
    requires AllSymbols(a) && AllSymbols(b) && AllLonger(a)
    ensures AllSymbols(a + b)
    ensures AllLonger(b) ==> AllLonger(a + b)
  {
  }

  /** The whole list, six pasted names and then words, is one single pass when its words are
      free of chains and not part of a pasted name; it lengthens every name when the words
      do. */
  lemma WholeListIsOrdered(ws: seq<string>, words: seq<Rule>)
    requires PartsDiffer(ws) && AllWords(words) && NoChain(words)
    requires forall j :: 0 <= j < |words| ==> words[j].name !in ws
    ensures AllSymbols(PastedRules(ws) + words) && Ordered(Rewritings(PastedRules(ws) + words))
    ensures AllLonger(words) ==> AllLonger(PastedRules(ws) + words)
  {
    var pasted := PastedRules(ws);
    WordsAreSymbols(words);
    PastedAreSymbols(ws);
    BothParts(pasted, words);
    PastedAreConsistent(ws);
    forall i, j | 0 <= i < |pasted| && 0 <= j < |words|
      ensures words[j].name !in Runs(pasted[i].name) && words[j].name !in Runs(pasted[i].newName)
    {
      NotAPart(ws, i, words[j].name);
    }
    PastedThenWords(pasted, words);
  }

  lemma WordPattern(r: Rule)
    requires IsWord(r.name)
    ensures OnRuns(r).lhs == [r.name] && Unbordered(OnRuns(r).lhs)
  {
    RunsOfWord(r.name);
  }

  /** Pasted names followed by words are consistent when both parts are. */
  lemma BothConsistent(pasted: seq<Rule>, words: seq<Rule>)
    requires Consistent(Rewritings(pasted)) && AllWords(words) && NoChain(words) && Agreeing(words)
    requires forall i, j :: 0 <= i < |pasted| && 0 <= j < |words| ==>
      words[j].name !in Runs(pasted[i].name) && words[j].name !in Runs(pasted[i].newName)
    ensures Consistent(Rewritings(pasted + words))
  {
    var rs, n := Rewritings(pasted + words), |pasted|;
    PastedThenWords(pasted, words);
    forall i | 0 <= i < n ensures rs[i] == Rewritings(pasted)[i] {
    }
    forall i | n <= i < |rs| ensures rs[i].lhs == [words[i - n].name] && Unbordered(rs[i].lhs) {
      WordPattern(words[i - n]);
    }
    forall i, j | 0 <= i < |rs| && 0 <= j < |rs| && rs[i].lhs == rs[j].lhs ensures rs[i].rhs == rs[j].rhs {
      if i <= j { SamePattern(pasted, words, i, j); } else { SamePattern(pasted, words, j, i); }
    }
  }

  lemma PatternsDiffer(r: Rule, w: Rule)
    requires IsWord(w.name) && w.name !in Runs(r.name)
    ensures OnRuns(r).lhs != OnRuns(w).lhs
  {
    WordPattern(w);
    assert [w.name][0] == w.name;
  }

  lemma SameWord(r: Rule, s: Rule)
    requires IsWord(r.name) && IsWord(s.name) && OnRuns(r).lhs == OnRuns(s).lhs
    ensures r.name == s.name
  {
    SameRunsSameText(r.name, s.name);
  }

  lemma SamePattern(pasted: seq<Rule>, words: seq<Rule>, i: nat, j: nat)
    requires Consistent(Rewritings(pasted)) && AllWords(words) && Agreeing(words)
    requires forall i, j :: 0 <= i < |pasted| && 0 <= j < |words| ==> words[j].name !in Runs(pasted[i].name)
    requires i <= j < |pasted + words|
    requires OnRuns((pasted + words)[i]).lhs == OnRuns((pasted + words)[j]).lhs
    ensures OnRuns((pasted + words)[i]).rhs == OnRuns((pasted + words)[j]).rhs
  {
    var n := |pasted|;
    if j < n {
      assert Rewritings(pasted)[i] == OnRuns(pasted[i]) && Rewritings(pasted)[j] == OnRuns(pasted[j]);
    } else if n <= i {
      SameWord(words[i - n], words[j - n]);
    } else {
      PatternsDiffer(pasted[i], words[j - n]);
    }
  }

  /** The whole list is well behaved when also its repeated words repeat the whole line. */
  lemma WholeListIsWellBehaved(ws: seq<string>, words: seq<Rule>)
    requires PartsDiffer(ws) && AllWords(words) && NoChain(words) && Agreeing(words)
    requires forall j :: 0 <= j < |words| ==> words[j].name !in ws
    ensures WellBehaved(PastedRules(ws) + words)
  {
    var pasted := PastedRules(ws);
    WordsAreSymbols(words);
    PastedAreSymbols(ws);
    PastedAreConsistent(ws);
    forall i, j | 0 <= i < |pasted| && 0 <= j < |words|
      ensures words[j].name !in Runs(pasted[i].name) && words[j].name !in Runs(pasted[i].newName)
    {
      NotAPart(ws, i, words[j].name);
    }
    BothConsistent(pasted, words);
  }

  lemma PastedGrows(ws: seq<string>, i: nat)
    requires PartsDiffer(ws) && i < 6
    ensures |Runs(PastedRule(ws, i).name)| <= |Runs(PastedRule(ws, i).newName)|
  {
    PastedName(ws, i);
    PastedNewName(ws, i);
  }

  /** And it grows, when its words become longer. */
  lemma WholeListGrows(ws: seq<string>, words: seq<Rule>)
    requires PartsDiffer(ws) && AllWords(words) && AllLonger(words)
    ensures Growing(PastedRules(ws) + words)
  {
    var all := PastedRules(ws) + words;
    forall i | 0 <= i < |all|
      ensures |all[i].name| < |all[i].newName| && |Runs(all[i].name)| <= |Runs(all[i].newName)|
    {
      if i < 6 {
        PastedGrows(ws, i);
        PastedIsLonger(ws, i);
      } else {
        RunsOfWord(words[i - 6].name);
        RunsOfWord(words[i - 6].newName);
      }
    }
    GrowingWhen(all);
  }

  lemma PastedIsNoWord(ws: seq<string>, i: nat)
    requires PartsDiffer(ws) && i < 6
    ensures !IsWord(PastedRule(ws, i).name)
  {
    PastedName(ws, i);
    if IsWord(PastedRule(ws, i).name) { RunsOfWord(PastedRule(ws, i).name); }
  }

  /** Two versions of the whole list, with other words, have the same pasted names. */
  lemma WholeListsAgree(ws: seq<string>, a: seq<Rule>, b: seq<Rule>)
    requires PartsDiffer(ws) && AllWords(a) && AllWords(b) && NoChain(a) && NoChain(b)
    requires forall j :: 0 <= j < |a| ==> a[j].name !in ws
    requires forall j :: 0 <= j < |b| ==> b[j].name !in ws
    ensures SamePasted(PastedRules(ws) + a, PastedRules(ws) + b)
  {
    var pasted := PastedRules(ws);
    WholeListIsOrdered(ws, a);
    WholeListIsOrdered(ws, b);
    forall i | 0 <= i < 6 ensures !IsWord(pasted[i].name) {
      PastedIsNoWord(ws, i);
    }
    SameBeginning(pasted, a, b);
  }

  lemma UndoAppend(a: seq<Rule>, b: seq<Rule>)
    ensures Undo(a + b) == Undo(a) + Undo(b)
  {
  }

  /** The way back of the whole list is consistent as well, when its words have different
      new names, none of them a listed word or a part of a pasted name. */
  lemma WholeListIsReversible(ws: seq<string>, words: seq<Rule>)
    requires PartsDiffer(ws) && AllWords(words) && Fresh(words) && OneToOne(words)
    requires forall j :: 0 <= j < |words| ==> words[j].name !in ws && words[j].newName !in ws
    ensures Reversible(PastedRules(ws) + words) && Consistent(Rewritings(Undo(PastedRules(ws) + words)))
  {
    var pasted, undo := PastedRules(ws), Undo(words);
    FreshIsComplete(words);
    UndoIsFresh(words);
    FreshIsComplete(undo);
    WholeListIsWellBehaved(ws, words);
    UndoPastedAreConsistent(ws);
    PastedAreSymbols(ws);
    WordsAreSymbols(words);
    forall i, j | 0 <= i < |pasted| && 0 <= j < |undo|
      ensures undo[j].name !in Runs(Undo(pasted)[i].name) && undo[j].name !in Runs(Undo(pasted)[i].newName)
    {
      NotAPart(ws, i, undo[j].name);
    }
    BothConsistent(Undo(pasted), undo);
    UndoAppend(pasted, words);
  }

  /** The six names as they are listed. Lines 1 to 4 list their new names as well, and the
      other two get the default prefix. */
  const LISTED := [
    "NAME##ToYRow_C", "NAME##ToYJRow_C", "NAME##ToUVRow_C", "NAME##ToUVJRow_C",
    "kYuv##name##Constants", "kYvu##name##Constants"
  ]

  lemma NamesSpelled()
    ensures Hashed("NAME", "ToYRow_C") == "NAME##ToYRow_C"
    ensures Hashed("NAME", "ToYJRow_C") == "NAME##ToYJRow_C"
    ensures Hashed("NAME", "ToUVRow_C") == "NAME##ToUVRow_C"
    ensures Hashed("NAME", "ToUVJRow_C") == "NAME##ToUVJRow_C"
  {
  }

  lemma ConstantsSpelled()
    ensures Hashed("kYuv", Hashed("name", "Constants")) == "kYuv##name##Constants"
    ensures Hashed("kYvu", Hashed("name", "Constants")) == "kYvu##name##Constants"
  {
  }

  lemma PrefixesSpelled()
    ensures "rs_" + "##" == PASTE && FNC_PREFIX + "kYuv" == "rs_kYuv" && FNC_PREFIX + "kYvu" == "rs_kYvu"
  {
  }

  lemma PrefixFirst(prefix: string, a: string, b: string)
    ensures prefix + Hashed(a, b) == Hashed(prefix + a, b)
    ensures (prefix + "##") + Hashed(a, b) == Hashed(prefix, Hashed(a, b))
  {
  }

  lemma AsListed(i: nat)
    requires i < 6
    ensures PastedRule(PARTS, i).name == LISTED[i]
    ensures PastedRule(PARTS, i).newName == (if i < 4 then PASTE else FNC_PREFIX) + PastedRule(PARTS, i).name
  {
    NamesSpelled();
    ConstantsSpelled();
    PrefixesSpelled();
    if i < 4 {
      PrefixFirst(PARTS[9], PARTS[0], PARTS[i + 1]);
    } else {
      PrefixFirst(FNC_PREFIX, PARTS[i + 1], Hashed(PARTS[7], PARTS[8]));
    }
  }

  /** Line `i` of the list: lines 1 to 4 have two columns. */
  function Line(i: nat): string
    requires i < 6
  {
    if i < 4 then LISTED[i] + (" " + (PASTE + LISTED[i])) else LISTED[i]
  }

  lemma HashedIsSolid(a: string, b: string)
    requires Solid(a) && Solid(b)
    ensures Solid(Hashed(a, b))
  {
    SolidParts("##", b);
    SolidParts(a, "##" + b);
  }

  lemma PastedIsSolid(ws: seq<string>, i: nat)
    requires PartsDiffer(ws) && i < 6
    ensures Solid(PastedRule(ws, i).name) && Solid(PastedRule(ws, i).newName)
  {
    forall k | 0 <= k < 12 ensures Solid(ws[k]) { WordIsSolid(ws[k]); }
    if i < 4 {
      HashedIsSolid(ws[0], ws[i + 1]);
      HashedIsSolid(ws[9], Hashed(ws[0], ws[i + 1]));
    } else {
      HashedIsSolid(ws[7], ws[8]);
      HashedIsSolid(ws[i + 1], Hashed(ws[7], ws[8]));
      HashedIsSolid(ws[i + 6], Hashed(ws[7], ws[8]));
    }
  }

  lemma RuleIsParsed(r: Rule, line: string)
    requires Solid(r.name) && r.name != "" && Solid(r.newName) && r.newName != ""
    requires line == r.name + (" " + r.newName) || (line == r.name && r.newName == FNC_PREFIX + r.name)
    ensures ParseLine(line) == Some(r)
  {
    if line == r.name + (" " + r.newName) { TwoColumnLine(r.name, r.newName); } else { SolidLine(r.name); }
  }

  /** The lines are parsed as the rules above. */
  lemma LineIsParsed(i: nat)
    requires i < 6
    ensures ParseLine(Line(i)) == Some(PastedRule(PARTS, i))
  {
    TheyDiffer();
    AsListed(i);
    PastedIsSolid(PARTS, i);
    PastedName(PARTS, i);
    PastedIsLonger(PARTS, i);
    RuleIsParsed(PastedRule(PARTS, i), Line(i));
  }

  function SixLines(): (lines: seq<string>)
    ensures |lines| == 6 && forall i :: 0 <= i < 6 ==> lines[i] == Line(i)
  {
    seq(6, i requires 0 <= i < 6 => Line(i))
  }

  lemma SixLinesParsed()
    ensures RulesOf(SixLines()) == PastedRules(PARTS)
  {
    forall i | 0 <= i < 6 ensures ParseLine(SixLines()[i]) == Some(PastedRules(PARTS)[i]) {
      LineIsParsed(i);
    }
    ParsedInOrder(SixLines(), PastedRules(PARTS));
  }

  /** The six lines, followed by bare words. */
  lemma WholeListParsed(bare: seq<string>)
    requires BareWords(bare)
    ensures RulesOf(SixLines() + bare) == PastedRules(PARTS) + PrefixRules(bare)
  {
    SixLinesParsed();
    BareLines(bare);
    RulesOfAppend(SixLines(), bare);
  }

  /** What such words are asked for: no one is the prefixed form of an earlier one, and none
      is a part of the six names. */
  lemma BareWordsFit(bare: seq<string>)
    requires forall k :: 0 <= k < |bare| ==> IsWord(bare[k]) && bare[k] !in PARTS
    requires forall k, m :: 0 <= k < m < |bare| ==> FNC_PREFIX + bare[k] != bare[m]
    ensures BareWords(bare)
    ensures AllWords(PrefixRules(bare)) && NoChain(PrefixRules(bare)) && AllLonger(PrefixRules(bare))
    ensures forall k :: 0 <= k < |bare| ==> PrefixRules(bare)[k].name !in PARTS
    ensures Agreeing(PrefixRules(bare)) && OneToOne(PrefixRules(bare))
    ensures (forall k, m :: 0 <= k < |bare| && 0 <= m < |bare| ==> FNC_PREFIX + bare[k] != bare[m]) ==>
      Fresh(PrefixRules(bare))
  {
    forall k, m | 0 <= k < |bare| && 0 <= m < |bare|
      ensures FNC_PREFIX + bare[k] == FNC_PREFIX + bare[m] <==> bare[k] == bare[m]
    {
      assert (FNC_PREFIX + bare[k])[3..] == bare[k] && (FNC_PREFIX + bare[m])[3..] == bare[m];
    }
    forall k | 0 <= k < |bare| ensures IsWord(FNC_PREFIX + bare[k]) {
      PrefixedWord(bare[k]);
    }
  }

  lemma TheyDiffer()
    ensures PartsDiffer(PARTS)
  {
  }

  // ---------------------------------------------------------------------------
  // What the six lines break
  // ---------------------------------------------------------------------------

  lemma DropHead<T>(a: seq<T>, b: seq<T>, c: seq<T>)
    ensures a + b <= a + c ==> b <= c
  {
    if a + b <= a + c {
      assert (a + b)[|a|..] == b && (a + c)[|a|..] == c;
    }
  }

  lemma FoundBehindPaste(p: seq<string>)
    requires p != [] && StartsWithWord(p[0]) && Unbordered(p) && p != ["rs_"] && |p| != 2
    ensures Subst(PASTE_RUNS + (PASTE_RUNS + p), PASTE_RUNS + p, p) == PASTE_RUNS + p
  {
    var q := PASTE_RUNS + p;
    NotAtPrefix(p);
    DropHead(PASTE_RUNS, p, q);
    assert (["##"] + q)[0] == "##" != q[0];
    assert PASTE_RUNS[0..] == PASTE_RUNS && PASTE_RUNS[1..] == ["##"];
    SubstSkip(PASTE_RUNS, q, q, p);
    SubstHead(q, [], p);
    assert q + [] == q && p + [] == p;
  }

  lemma FoundInItself(name: string)
    requires IsSymbol(name)
    ensures Found(name, name)
  {
    assert Runs(name)[0..] == Runs(name);
    FoundIffOccurs(name, name);
  }

  lemma PasteTwice(name: string)
    requires IsSymbol(name)
    ensures IsSymbol(PASTE + name) && IsSymbol(PASTE + (PASTE + name))
    ensures Runs(PASTE + name) == PASTE_RUNS + Runs(name)
    ensures Runs(PASTE + (PASTE + name)) == PASTE_RUNS + (PASTE_RUNS + Runs(name))
  {
    PlainPaste();
    PasteIsSymbol(PASTE, name);
    PasteRuns(PASTE, name);
    PasteIsSymbol(PASTE, PASTE + name);
    PasteRuns(PASTE, PASTE + name);
  }

  lemma BackFromPaste(name: string)
    requires IsSymbol(name) && Unbordered(Runs(name)) && Runs(name) != ["rs_"] && |Runs(name)| != 2
    ensures Replace(PASTE + (PASTE + name), PASTE + name, name) == PASTE + name
  {
    var text := PASTE + name;
    PasteTwice(name);
    RunsOfSymbol(name);
    ScanReplacesRuns(PASTE + text, text, name);
    FoundBehindPaste(Runs(name));
    SameRunsSameText(Replace(PASTE + text, text, name), text);
  }

  lemma OneRuleBack(r: Rule, text: string)
    requires IsSymbol(r.name) && IsSymbol(r.newName) && Found(r.newName, text)
    requires Replace(Replace(text, r.name, r.newName), r.newName, r.name) == text
    ensures Named([r]) && Named(Undo([r])) && !NoneNew(text, [r])
    ensures Rename(Rename(text, [r]), Undo([r])) == text
  {
    var back := Rule(r.newName, r.name);
    OneRule(r, text);
    OneRule(back, Rename(text, [r]));
    assert Undo([r]) == [back];
    assert Found([r][0].newName, text);
  }

  /** A pasted new name that stands in a text already is found again, and restored, on the
      way back. */
  lemma PastedComesBack(r: Rule)
    requires IsSymbol(r.name) && Unbordered(Runs(r.name)) && Runs(r.name) != ["rs_"] && |Runs(r.name)| != 2
    requires r.newName == PASTE + r.name
    ensures Named([r]) && Named(Undo([r])) && !NoneNew(r.newName, [r])
    ensures Rename(Rename(r.newName, [r]), Undo([r])) == r.newName
  {
    PlainPaste();
    PasteTwice(r.name);
    FoundInItself(r.newName);
    PastingRepeats(PASTE, r.name);
    BackFromPaste(r.name);
    OneRuleBack(r, r.newName);
  }

  const FIRST_NAME := "NAME##ToYRow_C"

  /** The very first rule of the list pastes its prefix. */
  lemma FirstRuleIsNotIdempotent()
    ensures Replace(FIRST_NAME, FIRST_NAME, PASTE + FIRST_NAME) == PASTE + FIRST_NAME
    ensures Replace(PASTE + FIRST_NAME, FIRST_NAME, PASTE + FIRST_NAME) == PASTE + (PASTE + FIRST_NAME)
    ensures Found(FIRST_NAME, Replace(FIRST_NAME, FIRST_NAME, PASTE + FIRST_NAME))
  {
    FirstNameRuns();
    PastingIsNotIdempotent(FIRST_NAME);
  }

  lemma FirstNameRuns()
    ensures IsSymbol(FIRST_NAME) && |Runs(FIRST_NAME)| == 3 && Unbordered(Runs(FIRST_NAME))
  {
    TheyDiffer();
    assert FIRST_NAME == Hashed(PARTS[0], PARTS[1]);
    TwoHashed(PARTS[0], PARTS[1]);
    FirstOnce([PARTS[0], "##", PARTS[1]]);
  }

  /** A name of several runs is renamed as a whole, and its first run, where it stands
      alone, is not: word by word, such a rule does not keep the links between files. */
  lemma PastedSplitsWords(r: Rule)
    requires IsSymbol(r.name) && IsSymbol(r.newName) && 1 < |Runs(r.name)|
    requires Runs(r.newName) != [] && Runs(r.newName)[0] != Runs(r.name)[0]
    ensures Named([r]) && !LinksKept([r.name, Runs(r.name)[0]], [r])
  {
    var w := Runs(r.name)[0];
    RunsOfRun(w);
    OneRule(r, r.name);
    ReplaceItself(r.name, r.newName);
    OneRule(r, w);
    assert !Found(r.name, w) by {
      FoundIffOccurs(r.name, w);
    }
    ReplaceAbsent(w, r.name, r.newName);
    var files := [r.name, w];
    assert !LinkKept(files[0], 0, files[1], 0, [r]);
  }

  /** All six lines are such rules. */
  lemma PastedLineSplitsWords(ws: seq<string>, i: nat)
    requires PartsDiffer(ws) && i < 6
    ensures var r := PastedRule(ws, i); r.name != "" && !LinksKept([r.name, PastedLhs(ws, i)[0]], [r])
  {
    PastedName(ws, i);
    PastedNewName(ws, i);
    PastedSplitsWords(PastedRule(ws, i));
  }
}
