/** Word characters and the split of a text into maximal runs. A run holds word
    characters only or separator characters only; it is the unit at which the
    word-boundary patterns of the build script see a text. */
module Words {

  /** The characters outside ASCII that the regex engine counts as word characters.
      The table is left arbitrary, but for white space, which is never in it: nothing
      below depends on what it holds. */
  const UNICODE_WORD_CHARS: set<char>

  /** Unicode white space. */
  predicate IsWhitespace(c: char) {
    || '\U{9}' <= c <= '\U{D}'
    || c == ' ' || c == '\U{85}' || c == '\U{A0}' || c == '\U{1680}' || '\U{2000}' <= c <= '\U{200A}'
    || c == '\U{2028}' || c == '\U{2029}' || c == '\U{202F}' || c == '\U{205F}' || c == '\U{3000}'
  }

  predicate IsWordChar(c: char) {
    || 'a' <= c <= 'z'
    || 'A' <= c <= 'Z'
    || '0' <= c <= '9'
    || c == '_'
    || ('\U{7F}' < c && c in UNICODE_WORD_CHARS && !IsWhitespace(c))
  }

  /** Inside ASCII, the word characters are letters, digits and the underscore. */
  lemma AsciiWordChars(c: char)
    requires c <= '\U{7F}'
    ensures IsWordChar(c) <==> 'a' <= c <= 'z' || 'A' <= c <= 'Z' || '0' <= c <= '9' || c == '_'
  {
  }

  /** The characters with the Unicode property `White_Space`. */
  lemma WhiteSpaceChars(c: char)
    ensures IsWhitespace(c) <==> c in {
      '\U{9}', '\U{A}', '\U{B}', '\U{C}', '\U{D}', '\U{20}', '\U{85}', '\U{A0}', '\U{1680}',
      '\U{2000}', '\U{2001}', '\U{2002}', '\U{2003}', '\U{2004}', '\U{2005}', '\U{2006}', '\U{2007}',
      '\U{2008}', '\U{2009}', '\U{200A}', '\U{2028}', '\U{2029}', '\U{202F}', '\U{205F}', '\U{3000}'
    }
  {
  }

  predicate StartsWithWord(s: string) {
    s != "" && IsWordChar(s[0])
  }

  predicate EndsWithWord(s: string) {
    s != "" && IsWordChar(s[|s| - 1])
  }

  /** A word: what the build script calls a function name when it has no `##` inside. */
  predicate IsWord(s: string) {
    s != "" && forall i :: 0 <= i < |s| ==> IsWordChar(s[i])
  }

  /** A non-empty piece of text whose characters are all of one kind. */
  predicate Uniform(s: string) {
    s != "" && forall i :: 0 <= i < |s| ==> IsWordChar(s[i]) == IsWordChar(s[0])
  }

  /** The runs of some text: uniform pieces of alternating kinds. */
  predicate Alternating(runs: seq<string>) {
    && (forall i :: 0 <= i < |runs| ==> Uniform(runs[i]))
    && (forall i :: 0 < i < |runs| ==> StartsWithWord(runs[i - 1]) != StartsWithWord(runs[i]))
  }

  /** No run can extend across the point between `a` and `b`. */
  predicate Seam(a: string, b: string) {
    a == "" || b == "" || EndsWithWord(a) != StartsWithWord(b)
  }

  function RunLength(s: string): (n: nat)
    requires s != ""
    ensures 0 < n <= |s|
    ensures Uniform(s[..n])
    ensures n < |s| ==> IsWordChar(s[n]) != IsWordChar(s[0])
  {
    if |s| == 1 || IsWordChar(s[1]) != IsWordChar(s[0]) then 1 else 1 + RunLength(s[1..])
  }

  function Join(runs: seq<string>): string {
    if runs == [] then "" else runs[0] + Join(runs[1..])
  }

  function Runs(s: string): (runs: seq<string>)
    ensures Alternating(runs)
    ensures Join(runs) == s
    ensures s != "" ==> runs != [] && runs[0][0] == s[0]
  {
    if s == "" then [] else
      var n := RunLength(s);
      var rest := Runs(s[n..]);
      assert s == s[..n] + s[n..];
      [s[..n]] + rest
  }

  lemma {:induction false} JoinAppend(a: seq<string>, b: seq<string>)
    ensures Join(a + b) == Join(a) + Join(b)
  {
    if a == [] {
      assert a + b == b;
    } else {
      assert (a + b)[1..] == a[1..] + b;
      JoinAppend(a[1..], b);
    }
  }

  lemma {:induction false} JoinEnds(runs: seq<string>)
    requires Alternating(runs) && runs != []
    ensures Join(runs) != ""
    ensures StartsWithWord(Join(runs)) == StartsWithWord(runs[0])
    ensures EndsWithWord(Join(runs)) == StartsWithWord(runs[|runs| - 1])
  {
    var last := |runs| - 1;
    assert runs == runs[..last] + [runs[last]];
    JoinAppend(runs[..last], [runs[last]]);
    assert Join([runs[last]]) == runs[last];
    assert Uniform(runs[last]) && Uniform(runs[0]);
  }

  lemma {:induction false} FirstRunLength(a: string, b: string)
    requires Uniform(a)
    requires b != "" ==> IsWordChar(b[0]) != IsWordChar(a[0])
    ensures RunLength(a + b) == |a|
  {
    var s := a + b;
    assert forall i :: 0 <= i < |a| ==> s[i] == a[i];
    assert b != "" ==> s[|a|] == b[0];
    var run := s[..RunLength(s)];
    assert forall i :: 0 <= i < |run| ==> run[i] == s[i];
  }

  lemma {:induction false} RunsStep(a: string, b: string)
    requires Uniform(a)
    requires b != "" ==> IsWordChar(b[0]) != IsWordChar(a[0])
    ensures Runs(a + b) == [a] + Runs(b)
  {
    FirstRunLength(a, b);
    assert (a + b)[..|a|] == a && (a + b)[|a|..] == b;
  }

  lemma NextKind(runs: seq<string>)
    requires Alternating(runs) && runs != []
    ensures Uniform(runs[0]) && Alternating(runs[1..])
    ensures Join(runs[1..]) != "" ==> IsWordChar(Join(runs[1..])[0]) != IsWordChar(runs[0][0])
  {
    if 1 < |runs| {
      JoinEnds(runs[1..]);
      assert StartsWithWord(runs[0]) != StartsWithWord(runs[1]);
    }
  }

  /** The split is the only one: every alternating sequence is the runs of its join. */
  lemma {:induction false} RunsOfJoin(runs: seq<string>)
    requires Alternating(runs)
    ensures Runs(Join(runs)) == runs
  {
    if runs != [] {
      NextKind(runs);
      RunsOfJoin(runs[1..]);
      RunsStep(runs[0], Join(runs[1..]));
    }
  }

  lemma AlternatingAppend(a: seq<string>, b: seq<string>)
    requires Alternating(a) && Alternating(b)
    requires a != [] && b != [] ==> StartsWithWord(a[|a| - 1]) != StartsWithWord(b[0])
    ensures Alternating(a + b)
  {
    var c := a + b;
    forall i | 0 <= i < |c| ensures Uniform(c[i]) {
      if i < |a| { assert c[i] == a[i]; } else { assert c[i] == b[i - |a|]; }
    }
    forall i | 0 < i < |c| ensures StartsWithWord(c[i - 1]) != StartsWithWord(c[i]) {
      if i < |a| {
        assert c[i] == a[i] && c[i - 1] == a[i - 1];
      } else if |a| < i {
        assert c[i] == b[i - |a|] && c[i - 1] == b[i - |a| - 1];
      }
    }
  }

  /** Splitting at a seam splits the runs. */
  lemma {:induction false} RunsAppend(a: string, b: string)
    requires Seam(a, b)
    ensures Runs(a + b) == Runs(a) + Runs(b)
  {
    if a != "" { JoinEnds(Runs(a)); }
    if b != "" { JoinEnds(Runs(b)); }
    AlternatingAppend(Runs(a), Runs(b));
    JoinAppend(Runs(a), Runs(b));
    RunsOfJoin(Runs(a) + Runs(b));
  }

  lemma RunsOfWord(w: string)
    requires IsWord(w)
    ensures Runs(w) == [w]
  {
    assert Join([w]) == w;
    RunsOfJoin([w]);
  }
}
