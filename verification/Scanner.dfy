/** The regex replacement of the build script: every leftmost, non-overlapping match of a
    literal name between two word boundaries is replaced by a literal text. The main
    result says that this scan over characters is a replacement over runs. */
module Scanner {
  import opened Words
  import opened Rewriting

  /** Characters with a meaning of their own in a regex or in a replacement text. */
  predicate IsSpecial(c: char) {
    || c == '\\' || c == '.' || c == '+' || c == '*' || c == '?' || c == '|' || c == '^' || c == '$'
    || c == '(' || c == ')' || c == '[' || c == ']' || c == '{' || c == '}'
  }

  /** A name the script can list: a word, or words held together by other characters, as
      in `NAME##ToYRow_C`. It stands for itself, in a regex and in a replacement text. */
  predicate IsSymbol(s: string) {
    StartsWithWord(s) && EndsWithWord(s) && forall i :: 0 <= i < |s| ==> !IsSpecial(s[i])
  }

  /** `\b` at index `i`. */
  predicate Boundary(text: string, i: nat)
    requires i <= |text|
  {
    (0 < i && IsWordChar(text[i - 1])) != (i < |text| && IsWordChar(text[i]))
  }

  /** `\bname\b` matches at index `i`. */
  predicate MatchAt(text: string, name: string, i: nat)
    requires i <= |text|
  {
    && name <= text[i..]
    && Boundary(text, i)
    && Boundary(text, i + |name|)
  }

  function ReplaceFrom(text: string, name: string, newName: string, i: nat): string
    requires name != "" && i <= |text|
    decreases |text| - i
  {
    if i == |text| then ""
    else if MatchAt(text, name, i) then newName + ReplaceFrom(text, name, newName, i + |name|)
    else [text[i]] + ReplaceFrom(text, name, newName, i + 1)
  }

  function Replace(text: string, name: string, newName: string): string
    requires name != ""
  {
    ReplaceFrom(text, name, newName, 0)
  }

  /** `name` stands somewhere in `text` between two word boundaries. */
  ghost predicate Found(name: string, text: string) {
    exists i :: 0 <= i <= |text| && MatchAt(text, name, i)
  }

  /** A name that begins and ends with a letter, a digit or an underscore matches between `a`
      and `b` exactly when neither `a` ends nor `b` begins with such a character. This is
      about neighbours inside ASCII. */
  lemma MatchBetween(a: string, name: string, b: string)
    requires name != ""
    requires var c := name[0]; 'a' <= c <= 'z' || 'A' <= c <= 'Z' || '0' <= c <= '9' || c == '_'
    requires var c := name[|name| - 1]; 'a' <= c <= 'z' || 'A' <= c <= 'Z' || '0' <= c <= '9' || c == '_'
    requires (a != "" ==> a[|a| - 1] <= '\U{7F}') && (b != "" ==> b[0] <= '\U{7F}')
    ensures MatchAt(a + name + b, name, |a|) <==>
      && (a == "" || var c := a[|a| - 1]; !('a' <= c <= 'z' || 'A' <= c <= 'Z' || '0' <= c <= '9' || c == '_'))
      && (b == "" || var c := b[0]; !('a' <= c <= 'z' || 'A' <= c <= 'Z' || '0' <= c <= '9' || c == '_'))
  {
    var text := a + name + b;
    assert text[|a|..] == name + b;
    assert a != "" ==> text[|a| - 1] == a[|a| - 1];
    assert text[|a|] == name[0] && text[|a| + |name| - 1] == name[|name| - 1];
    assert b != "" ==> text[|a| + |name|] == b[0];
  }

  /** The first match is replaced, what stands before it is kept, and the scan goes on
      right behind it. */
  lemma {:induction false} FirstMatchReplaced(text: string, name: string, newName: string, from: nat, i: nat)
    requires name != "" && from <= i <= |text| && MatchAt(text, name, i)
    requires forall j :: from <= j < i ==> !MatchAt(text, name, j)
    ensures ReplaceFrom(text, name, newName, from)
         == text[from..i] + (newName + ReplaceFrom(text, name, newName, i + |name|))
    decreases i - from
  {
    if from < i {
      FirstMatchReplaced(text, name, newName, from + 1, i);
      OneCharMore(text, from, i, newName + ReplaceFrom(text, name, newName, i + |name|));
    } else {
      assert text[from..i] == "";
    }
  }

  lemma OneCharMore(text: string, from: nat, i: nat, rest: string)
    requires from < i <= |text|
    ensures text[from..i] + rest == [text[from]] + (text[from + 1..i] + rest)
  {
  }

  /** Where nothing matches any more, the rest is kept. */
  lemma {:induction false} NoMatchKept(text: string, name: string, newName: string, from: nat)
    requires name != "" && from <= |text| && forall j :: from <= j < |text| ==> !MatchAt(text, name, j)
    ensures ReplaceFrom(text, name, newName, from) == text[from..]
    decreases |text| - from
  {
    if from < |text| {
      NoMatchKept(text, name, newName, from + 1);
      assert text[from..] == [text[from]] + text[from + 1..];
    }
  }

  /** What a name is: no character of it means something else in a regex or a replacement. */
  lemma SymbolChars(s: string)
    requires s != "" && forall i :: 0 <= i < |s| ==> s[i] <= '\U{7F}'
    ensures IsSymbol(s) <==>
      && (var c := s[0]; 'a' <= c <= 'z' || 'A' <= c <= 'Z' || '0' <= c <= '9' || c == '_')
      && (var c := s[|s| - 1]; 'a' <= c <= 'z' || 'A' <= c <= 'Z' || '0' <= c <= '9' || c == '_')
      && forall i :: 0 <= i < |s| ==> s[i] !in "\\.+*?|^$()[]{}"
  {
    forall i | 0 <= i < |s| ensures IsSpecial(s[i]) <==> s[i] in "\\.+*?|^$()[]{}" {
      SpecialChars(s[i]);
    }
  }

  lemma SpecialChars(c: char)
    ensures IsSpecial(c) <==> c in "\\.+*?|^$()[]{}"
  {
    var s := "\\.+*?|^$()[]{}";
    assert s == ['\\', '.', '+', '*', '?', '|', '^', '$', '(', ')', '[', ']', '{', '}'];
  }

  /** The result of the library's replacement: borrowed when nothing matched. */
  datatype Cow = Borrowed(text: string) | Owned(text: string)

  predicate FoundFrom(name: string, text: string, i: nat)
    requires i <= |text|
    decreases |text| - i
  {
    MatchAt(text, name, i) || (i < |text| && FoundFrom(name, text, i + 1))
  }

  function ReplaceAll(text: string, name: string, newName: string): Cow
    requires name != ""
  {
    if FoundFrom(name, text, 0) then Owned(Replace(text, name, newName)) else Borrowed(text)
  }

  lemma {:induction false} NotFoundCopies(text: string, name: string, newName: string, i: nat)
    requires name != "" && i <= |text| && !FoundFrom(name, text, i)
    ensures ReplaceFrom(text, name, newName, i) == text[i..]
    decreases |text| - i
  {
    if i < |text| {
      NotFoundCopies(text, name, newName, i + 1);
    }
  }

  /** Assigning the result only when it is owned is the same as always assigning it. */
  lemma BorrowedChangesNothing(text: string, name: string, newName: string)
    requires name != ""
    ensures ReplaceAll(text, name, newName).text == Replace(text, name, newName)
  {
    if !FoundFrom(name, text, 0) {
      NotFoundCopies(text, name, newName, 0);
    }
  }

  // ---------------------------------------------------------------------------
  // The scan, told on what is still to come
  // ---------------------------------------------------------------------------

  /** A match at the head of `rest`, when `before` says whether a word character was the
      last one passed. */
  predicate MatchHead(before: bool, rest: string, name: string) {
    && name <= rest
    && before != StartsWithWord(rest)
    && EndsWithWord(name) != StartsWithWord(rest[|name|..])
  }

  function Scan(before: bool, rest: string, name: string, newName: string): string
    requires name != ""
    decreases |rest|
  {
    if rest == "" then ""
    else if MatchHead(before, rest, name) then newName + Scan(EndsWithWord(name), rest[|name|..], name, newName)
    else [rest[0]] + Scan(IsWordChar(rest[0]), rest[1..], name, newName)
  }

  lemma PastName(text: string, name: string, i: nat)
    requires name != "" && i <= |text| && name <= text[i..]
    ensures text[i..][|name|..] == text[i + |name|..]
    ensures IsWordChar(text[i + |name| - 1]) == EndsWithWord(name)
  {
    assert text[i + |name| - 1] == text[i..][|name| - 1] == name[|name| - 1];
  }

  lemma MatchIsAhead(text: string, name: string, i: nat)
    requires name != "" && i <= |text|
    ensures MatchAt(text, name, i) <==> MatchHead(0 < i && IsWordChar(text[i - 1]), text[i..], name)
  {
    if name <= text[i..] { PastName(text, name, i); }
  }

  lemma {:induction false} ReplaceIsScan(text: string, name: string, newName: string, i: nat)
    requires name != "" && i <= |text|
    ensures ReplaceFrom(text, name, newName, i)
         == Scan(0 < i && IsWordChar(text[i - 1]), text[i..], name, newName)
    decreases |text| - i
  {
    MatchIsAhead(text, name, i);
    if i == |text| {
    } else if MatchAt(text, name, i) {
      PastName(text, name, i);
      ReplaceIsScan(text, name, newName, i + |name|);
    } else {
      assert text[i..][1..] == text[i + 1..];
      ReplaceIsScan(text, name, newName, i + 1);
    }
  }

  // ---------------------------------------------------------------------------
  // Characters and runs
  // ---------------------------------------------------------------------------

  lemma RunsOfSymbol(s: string)
    requires IsSymbol(s)
    ensures Runs(s) != []
    ensures StartsWithWord(Runs(s)[0]) && StartsWithWord(Runs(s)[|Runs(s)| - 1])
  {
    JoinEnds(Runs(s));
  }

  /** Inside a run there is no boundary, so the scan copies what is left of the run. */
  lemma {:induction false} CopyRun(kind: bool, run: string, rest: string, name: string, newName: string)
    requires name != "" && forall k :: 0 <= k < |run| ==> IsWordChar(run[k]) == kind
    ensures Scan(kind, run + rest, name, newName) == run + Scan(kind, rest, name, newName)
  {
    if run == "" {
      assert run + rest == rest;
    } else {
      assert (run + rest)[1..] == run[1..] + rest;
      CopyRun(kind, run[1..], rest, name, newName);
    }
  }

  lemma AfterRun(ts: seq<string>, k: nat)
    requires Alternating(ts) && 0 < k <= |ts| && StartsWithWord(ts[k - 1])
    ensures !StartsWithWord(Join(ts[k..]))
  {
    if k < |ts| {
      assert StartsWithWord(ts[k - 1]) != StartsWithWord(ts[k]);
      JoinEnds(ts[k..]);
    }
  }

  /** A match ahead means that the runs of the name come next. */
  lemma {:induction false} MatchIsPrefix(before: bool, ts: seq<string>, name: string)
    requires IsSymbol(name) && Alternating(ts) && MatchHead(before, Join(ts), name)
    ensures Runs(name) <= ts
  {
    var tail := Join(ts)[|name|..];
    assert Join(ts) == name + tail;
    RunsAppend(name, tail);
    RunsOfJoin(ts);
  }

  lemma PrefixIsMatch(before: bool, ts: seq<string>, name: string)
    requires IsSymbol(name) && Alternating(ts) && Runs(name) <= ts
    requires before ==> !StartsWithWord(Join(ts))
    ensures Join(ts) == name + Join(ts[|Runs(name)|..])
    ensures MatchHead(before, Join(ts), name)
    ensures !StartsWithWord(Join(ts[|Runs(name)|..]))
  {
    var p := Runs(name);
    RunsOfSymbol(name);
    assert ts == p + ts[|p|..];
    JoinAppend(p, ts[|p|..]);
    AfterRun(ts, |p|);
  }

  lemma SkipRun(before: bool, run: string, rest: string, name: string, newName: string)
    requires name != "" && Uniform(run) && !MatchHead(before, run + rest, name)
    ensures Scan(before, run + rest, name, newName) == run + Scan(StartsWithWord(run), rest, name, newName)
  {
    assert (run + rest)[1..] == run[1..] + rest;
    CopyRun(StartsWithWord(run), run[1..], rest, name, newName);
    assert run == [run[0]] + run[1..];
  }

  lemma SkipFirstRun(before: bool, ts: seq<string>, name: string, newName: string)
    requires name != "" && Alternating(ts) && ts != [] && !MatchHead(before, Join(ts), name)
    ensures Scan(before, Join(ts), name, newName)
         == ts[0] + Scan(StartsWithWord(ts[0]), Join(ts[1..]), name, newName)
  {
    assert Uniform(ts[0]);
    SkipRun(before, ts[0], Join(ts[1..]), name, newName);
  }

  /** A match ahead is replaced, and the scan goes on behind it. */
  lemma ReplaceHead(before: bool, ts: seq<string>, name: string, newName: string)
    requires IsSymbol(name) && Alternating(ts) && Runs(name) != [] && Runs(name) <= ts
    requires before ==> !StartsWithWord(Join(ts))
    ensures Scan(before, Join(ts), name, newName) == newName + Scan(true, Join(ts[|Runs(name)|..]), name, newName)
    ensures !StartsWithWord(Join(ts[|Runs(name)|..]))
  {
    var rest := Join(ts[|Runs(name)|..]);
    PrefixIsMatch(before, ts, name);
    assert (name + rest)[|name|..] == rest;
  }

  /** Where no match is ahead, the first run is copied. */
  lemma CopyHead(before: bool, ts: seq<string>, name: string, newName: string)
    requires IsSymbol(name) && Alternating(ts) && ts != [] && !(Runs(name) <= ts)
    ensures Scan(before, Join(ts), name, newName) == ts[0] + Scan(StartsWithWord(ts[0]), Join(ts[1..]), name, newName)
    ensures StartsWithWord(ts[0]) ==> !StartsWithWord(Join(ts[1..]))
  {
    if MatchHead(before, Join(ts), name) { MatchIsPrefix(before, ts, name); }
    SkipFirstRun(before, ts, name, newName);
    if StartsWithWord(ts[0]) { AfterRun(ts, 1); }
  }

  lemma {:induction false} ScanRuns(before: bool, ts: seq<string>, name: string, newName: string)
    requires IsSymbol(name) && Alternating(ts) && Runs(name) != []
    requires before ==> !StartsWithWord(Join(ts))
    ensures Scan(before, Join(ts), name, newName) == Join(Subst(ts, Runs(name), Runs(newName)))
    decreases |ts|
  {
    var p, n := Runs(name), Runs(newName);
    if ts == [] {
    } else if p <= ts {
      ReplaceHead(before, ts, name, newName);
      ScanRuns(true, ts[|p|..], name, newName);
      JoinAppend(n, Subst(ts[|p|..], p, n));
    } else {
      CopyHead(before, ts, name, newName);
      ScanRuns(StartsWithWord(ts[0]), ts[1..], name, newName);
    }
  }

  lemma SubstAlternating(ts: seq<string>, p: seq<string>, n: seq<string>)
    requires Alternating(ts) && Alternating(p) && Alternating(n) && p != [] && n != []
    requires StartsWithWord(p[0]) && StartsWithWord(p[|p| - 1]) && StartsWithWord(n[0]) && StartsWithWord(n[|n| - 1])
    ensures Alternating(Subst(ts, p, n))
    ensures ts != [] ==> Subst(ts, p, n) != [] && StartsWithWord(Subst(ts, p, n)[0]) == StartsWithWord(ts[0])
  {
    if ts == [] {
    } else if p <= ts {
      var rest := ts[|p|..];
      if rest != [] { assert StartsWithWord(ts[|p| - 1]) != StartsWithWord(ts[|p|]); }
      SubstAlternating(rest, p, n);
      AlternatingAppend(n, Subst(rest, p, n));
    } else {
      SubstAlternating(ts[1..], p, n);
      AlternatingAppend([ts[0]], Subst(ts[1..], p, n));
    }
  }

  /** The scan over characters replaces exactly the places where the runs of the name
      follow each other among the runs of the text. */
  lemma ScanReplacesRuns(text: string, name: string, newName: string)
    requires IsSymbol(name) && IsSymbol(newName)
    ensures Runs(name) != []
    ensures Runs(Replace(text, name, newName)) == Subst(Runs(text), Runs(name), Runs(newName))
  {
    RunsOfSymbol(name);
    RunsOfSymbol(newName);
    assert text[0..] == text;
    ReplaceIsScan(text, name, newName, 0);
    ScanRuns(false, Runs(text), name, newName);
    SubstAlternating(Runs(text), Runs(name), Runs(newName));
    RunsOfJoin(Subst(Runs(text), Runs(name), Runs(newName)));
  }

  lemma {:induction false} FoundOccurs(name: string, text: string, i: nat)
    requires IsSymbol(name) && i <= |text| && MatchAt(text, name, i)
    ensures Occurs(Runs(name), Runs(text))
  {
    var a, b := text[..i], text[i..];
    assert text == a + b && StartsWithWord(b);
    assert a != "" ==> a[|a| - 1] == text[i - 1];
    RunsAppend(a, b);
    MatchIsAhead(text, name, i);
    MatchIsPrefix(0 < i && IsWordChar(text[i - 1]), Runs(b), name);
    assert Runs(text)[|Runs(a)|..] == Runs(b);
  }

  lemma BeforeRun(ts: seq<string>, k: nat)
    requires Alternating(ts) && k < |ts| && StartsWithWord(ts[k])
    ensures !EndsWithWord(Join(ts[..k]))
  {
    if 0 < k {
      assert StartsWithWord(ts[k - 1]) != StartsWithWord(ts[k]);
      JoinEnds(ts[..k]);
    }
  }

  lemma MatchAfter(a: string, b: string, name: string)
    requires name != "" && MatchHead(EndsWithWord(a), b, name)
    ensures MatchAt(a + b, name, |a|)
  {
    assert (a + b)[|a|..] == b;
    MatchIsAhead(a + b, name, |a|);
  }

  lemma OccursFound(name: string, ts: seq<string>, k: nat)
    requires IsSymbol(name) && Alternating(ts) && k <= |ts| && Runs(name) <= ts[k..]
    ensures Found(name, Join(ts))
  {
    var a, b := Join(ts[..k]), Join(ts[k..]);
    assert Join(ts) == a + b by {
      assert ts == ts[..k] + ts[k..];
      JoinAppend(ts[..k], ts[k..]);
    }
    assert !EndsWithWord(a) by {
      RunsOfSymbol(name);
      assert Runs(name)[0] == ts[k..][0];
      BeforeRun(ts, k);
    }
    PrefixIsMatch(EndsWithWord(a), ts[k..], name);
    MatchAfter(a, b, name);
  }

  /** A name stands between boundaries somewhere exactly when its runs follow each other
      somewhere among the runs of the text. */
  lemma {:induction false} FoundIffOccurs(name: string, text: string)
    requires IsSymbol(name)
    ensures Found(name, text) <==> Occurs(Runs(name), Runs(text))
  {
    if Found(name, text) {
      var i :| 0 <= i <= |text| && MatchAt(text, name, i);
      FoundOccurs(name, text, i);
    }
    if Occurs(Runs(name), Runs(text)) {
      var k :| 0 <= k <= |Runs(text)| && Runs(name) <= Runs(text)[k..];
      OccursFound(name, Runs(text), k);
    }
  }
}
