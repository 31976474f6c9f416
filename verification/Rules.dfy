/** The list of renamings: how a line of the list is read, and what the whole list does
    to the text of one file. */
module Rules {
  import opened Words
  import opened Scanner
  import opened Wrappers

  const FNC_PREFIX := "rs_"

  datatype Rule = Rule(name: string, newName: string)

  // ---------------------------------------------------------------------------
  // Lines
  // ---------------------------------------------------------------------------

  predicate Blank(s: string) {
    forall i :: 0 <= i < |s| ==> IsWhitespace(s[i])
  }

  /** No white space at all, as in a name. */
  predicate Solid(s: string) {
    forall i :: 0 <= i < |s| ==> !IsWhitespace(s[i])
  }

  lemma SolidParts(a: string, b: string)
    ensures Solid(a + b) <==> Solid(a) && Solid(b)
  {
    assert forall i :: 0 <= i < |a| ==> (a + b)[i] == a[i];
    assert forall i :: 0 <= i < |b| ==> (a + b)[|a| + i] == b[i];
    assert forall i :: |a| <= i < |a + b| ==> (a + b)[i] == b[i - |a|];
  }

  function TrimStart(s: string): string {
    if s != "" && IsWhitespace(s[0]) then TrimStart(s[1..]) else s
  }

  function TrimEnd(s: string): (t: string)
    ensures t != "" ==> !IsWhitespace(t[|t| - 1])
  {
    if s != "" && IsWhitespace(s[|s| - 1]) then TrimEnd(s[..|s| - 1]) else s
  }

  function Trim(s: string): string {
    TrimEnd(TrimStart(s))
  }

  function ColumnLength(s: string): (n: nat)
    ensures n <= |s| && Solid(s[..n])
    ensures n < |s| ==> IsWhitespace(s[n])
    ensures s != "" && !IsWhitespace(s[0]) ==> 0 < n
  {
    if s == "" || IsWhitespace(s[0]) then 0 else 1 + ColumnLength(s[1..])
  }

  function SplitWhitespace(s: string): (columns: seq<string>)
    ensures forall i :: 0 <= i < |columns| ==> columns[i] != "" && Solid(columns[i])
    ensures columns == [] <==> Blank(s)
    decreases |s|
  {
    if s == "" then []
    else if IsWhitespace(s[0]) then
      assert Blank(s[1..]) ==> Blank(s);
      SplitWhitespace(s[1..])
    else
      [s[..ColumnLength(s)]] + SplitWhitespace(s[ColumnLength(s)..])
  }

  lemma {:induction false} TrimStartDropsBlank(s: string) returns (blank: string)
    ensures Blank(blank) && s == blank + TrimStart(s)
  {
    if s != "" && IsWhitespace(s[0]) {
      blank := TrimStartDropsBlank(s[1..]);
      blank := [s[0]] + blank;
    } else {
      blank := "";
    }
  }

  lemma {:induction false} TrimEndDropsBlank(s: string) returns (blank: string)
    ensures Blank(blank) && s == TrimEnd(s) + blank
  {
    if s != "" && IsWhitespace(s[|s| - 1]) {
      blank := TrimEndDropsBlank(s[..|s| - 1]);
      blank := blank + [s[|s| - 1]];
    } else {
      blank := "";
    }
  }

  /** Trimming changes no column, and takes away the whole line only when it is blank. */
  lemma {:induction false} TrimKeepsColumns(s: string)
    ensures SplitWhitespace(Trim(s)) == SplitWhitespace(s)
    ensures Trim(s) == "" <==> Blank(s)
  {
    var before := TrimStartDropsBlank(s);
    SplitSkipsBlank(before, TrimStart(s));
    var after := TrimEndDropsBlank(TrimStart(s));
    SplitIgnoresBlank(Trim(s), after);
    assert Trim(s) != "" ==> !Blank(Trim(s));
  }

  lemma {:induction false} SplitIgnoresBlank(s: string, blank: string)
    requires Blank(blank)
    ensures SplitWhitespace(s + blank) == SplitWhitespace(s)
  {
    if blank == "" {
      assert s + blank == s;
    } else {
      var init, c := blank[..|blank| - 1], blank[|blank| - 1];
      SplitIgnoresBlank(s, init);
      SplitIgnoresTail(s + init, c);
      assert s + blank == s + init + [c];
    }
  }

  lemma {:induction false} SplitIgnoresTail(s: string, c: char)
    requires IsWhitespace(c)
    ensures SplitWhitespace(s + [c]) == SplitWhitespace(s)
    decreases |s|
  {
    if s == "" {
      assert (s + [c])[1..] == "";
    } else if IsWhitespace(s[0]) {
      assert (s + [c])[1..] == s[1..] + [c];
      SplitIgnoresTail(s[1..], c);
    } else {
      var n := ColumnLength(s);
      ColumnThen(s[..n], s[n..] + [c]);
      assert s + [c] == s[..n] + (s[n..] + [c]);
      SplitIgnoresTail(s[n..], c);
    }
  }

  /** A column ends where white space starts. */
  lemma {:induction false} ColumnThen(column: string, rest: string)
    requires Solid(column) && (rest == "" || IsWhitespace(rest[0]))
    ensures ColumnLength(column + rest) == |column|
    ensures column != "" ==> SplitWhitespace(column + rest) == [column] + SplitWhitespace(rest)
  {
    if column == "" {
      assert column + rest == rest;
    } else {
      assert (column + rest)[1..] == column[1..] + rest;
      ColumnThen(column[1..], rest);
      assert (column + rest)[..|column|] == column && (column + rest)[|column|..] == rest;
    }
  }

  lemma {:induction false} SplitSkipsBlank(blank: string, rest: string)
    requires Blank(blank)
    ensures SplitWhitespace(blank + rest) == SplitWhitespace(rest)
  {
    if blank == "" {
      assert blank + rest == rest;
    } else {
      assert (blank + rest)[1..] == blank[1..] + rest;
      SplitSkipsBlank(blank[1..], rest);
    }
  }

  /** The second column, or else the prefixed first one. */
  function NewName(split: seq<string>): (newName: string)
    requires split != [] && forall i :: 0 <= i < |split| ==> split[i] != "" && Solid(split[i])
    ensures newName != "" && Solid(newName)
  {
    SolidParts(FNC_PREFIX, split[0]);
    if 1 < |split| then split[1] else FNC_PREFIX + split[0]
  }

  /** What the body of the loop takes from a line: nothing from a blank one; otherwise the
      first column and its new name. */
  function ParseLine(line: string): (r: Option<Rule>)
    ensures r.None? <==> Blank(line)
    ensures r.Some? ==> r.value.name != "" && Solid(r.value.name)
    ensures r.Some? ==> r.value.newName != "" && Solid(r.value.newName)
  {
    TrimKeepsColumns(line);
    var fnc := Trim(line);
    if fnc == "" then None
    else
      var split := SplitWhitespace(fnc);
      Some(Rule(split[0], NewName(split)))
  }

  /** A line with one column, whatever white space is around it. */
  lemma ParseOneColumn(before: string, name: string, after: string)
    requires Blank(before) && Blank(after) && Solid(name) && name != ""
    ensures ParseLine(before + name + after) == Some(Rule(name, FNC_PREFIX + name))
  {
    var line := before + name + after;
    assert line == before + (name + after);
    SplitSkipsBlank(before, name + after);
    ColumnThen(name, after);
    TrimKeepsColumns(line);
    NotBlank(before, name, after);
  }

  lemma {:induction false} SplitTwoColumns(
    before: string, name: string, between: string, newName: string, after: string
  )
    requires Blank(before) && Blank(between) && between != ""
    requires Solid(name) && name != "" && Solid(newName) && newName != ""
    requires after == "" || IsWhitespace(after[0])
    ensures SplitWhitespace(before + (name + (between + (newName + after))))
         == [name] + ([newName] + SplitWhitespace(after))
  {
    var rest := between + (newName + after);
    SplitSkipsBlank(before, name + rest);
    assert rest[0] == between[0];
    ColumnThen(name, rest);
    SplitSkipsBlank(between, newName + after);
    ColumnThen(newName, after);
  }

  /** A line with two columns; anything after them is ignored. */
  lemma ParseTwoColumns(before: string, name: string, between: string, newName: string, after: string)
    requires Blank(before) && Blank(between) && between != ""
    requires Solid(name) && name != "" && Solid(newName) && newName != ""
    requires after == "" || IsWhitespace(after[0])
    ensures ParseLine(before + (name + (between + (newName + after)))) == Some(Rule(name, newName))
  {
    var line := before + (name + (between + (newName + after)));
    SplitTwoColumns(before, name, between, newName, after);
    TrimKeepsColumns(line);
  }

  lemma SolidLine(line: string)
    requires Solid(line) && line != ""
    ensures ParseLine(line) == Some(Rule(line, FNC_PREFIX + line))
  {
    assert "" + line + "" == line;
    ParseOneColumn("", line, "");
  }

  lemma TwoColumnLine(name: string, newName: string)
    requires Solid(name) && name != "" && Solid(newName) && newName != ""
    ensures ParseLine(name + (" " + newName)) == Some(Rule(name, newName))
  {
    assert "" + (name + (" " + (newName + ""))) == name + (" " + newName);
    ParseTwoColumns("", name, " ", newName, "");
  }

  lemma WordIsSolid(w: string)
    requires IsWord(w)
    ensures Solid(w) && !Blank(w)
  {
    assert !IsWhitespace(w[0]);
  }

  lemma NotBlank(before: string, name: string, after: string)
    requires Solid(name) && name != ""
    ensures !Blank(before + name + after)
  {
    assert (before + name + after)[|before|] == name[0];
  }

  function RulesOf(lines: seq<string>): (rules: seq<Rule>)
    ensures Named(rules)
  {
    if lines == [] then []
    else
      var last := |lines| - 1;
      RulesOf(lines[..last]) + match ParseLine(lines[last]) case None => [] case Some(r) => [r]
  }

  // ---------------------------------------------------------------------------
  // The text of one file
  // ---------------------------------------------------------------------------

  predicate Named(rules: seq<Rule>) {
    forall i :: 0 <= i < |rules| ==> rules[i].name != ""
  }

  predicate AllSymbols(rules: seq<Rule>) {
    forall i :: 0 <= i < |rules| ==> IsSymbol(rules[i].name) && IsSymbol(rules[i].newName)
  }

  /** The rules applied one after the other, each to the result of the one before. */
  function Rename(text: string, rules: seq<Rule>): string
    requires Named(rules)
  {
    if rules == [] then text
    else
      var last := |rules| - 1;
      Replace(Rename(text, rules[..last]), rules[last].name, rules[last].newName)
  }

  lemma RenameOneMore(text: string, rules: seq<Rule>, r: Rule)
    requires Named(rules) && r.name != ""
    ensures Named(rules + [r])
    ensures Rename(text, rules + [r]) == Replace(Rename(text, rules), r.name, r.newName)
  {
    assert (rules + [r])[..|rules|] == rules;
  }

  lemma RulesOneMore(lines: seq<string>, i: nat)
    requires i < |lines|
    ensures RulesOf(lines[..i + 1])
         == RulesOf(lines[..i]) + match ParseLine(lines[i]) case None => [] case Some(r) => [r]
  {
    assert lines[..i + 1][..i] == lines[..i];
  }

  lemma RulesAppend(init: seq<string>, line: string, r: Rule)
    requires ParseLine(line) == Some(r)
    ensures RulesOf(init + [line]) == RulesOf(init) + [r]
  {
    assert (init + [line])[..|init|] == init;
  }

  /** The rule of one line, if it has one. */
  function RuleOf(line: string): seq<Rule> {
    match ParseLine(line) case None => [] case Some(r) => [r]
  }

  lemma RulesSnoc(init: seq<string>, line: string)
    ensures RulesOf(init + [line]) == RulesOf(init) + RuleOf(line)
  {
    assert (init + [line])[..|init|] == init;
  }

  lemma {:induction false} RulesOfAppend(a: seq<string>, b: seq<string>)
    ensures RulesOf(a + b) == RulesOf(a) + RulesOf(b)
  {
    if b == [] {
      assert a + b == a;
    } else {
      var init, last := b[..|b| - 1], b[|b| - 1];
      assert b == init + [last] && a + b == (a + init) + [last];
      RulesOfAppend(a, init);
      RulesSnoc(a + init, last);
      RulesSnoc(init, last);
    }
  }

  lemma {:induction false} ParsedInOrder(lines: seq<string>, rules: seq<Rule>)
    requires |lines| == |rules| && forall i :: 0 <= i < |lines| ==> ParseLine(lines[i]) == Some(rules[i])
    ensures RulesOf(lines) == rules
  {
    if lines != [] {
      var n := |lines| - 1;
      ParsedInOrder(lines[..n], rules[..n]);
      assert lines == lines[..n] + [lines[n]] && rules == rules[..n] + [rules[n]];
      RulesAppend(lines[..n], lines[n], rules[n]);
    }
  }

  /** One turn of the loop: what the list read so far plus this line does to the text. */
  lemma {:induction false} RenameOneLine(text: string, lines: seq<string>, i: nat)
    requires i < |lines|
    ensures var before, after := Rename(text, RulesOf(lines[..i])), Rename(text, RulesOf(lines[..i + 1]));
      match ParseLine(lines[i])
      case None => after == before
      case Some(r) => after == ReplaceAll(before, r.name, r.newName).text
  {
    RulesOneMore(lines, i);
    var parsed := ParseLine(lines[i]);
    if parsed.Some? {
      RenameOneMore(text, RulesOf(lines[..i]), parsed.value);
      BorrowedChangesNothing(Rename(text, RulesOf(lines[..i])), parsed.value.name, parsed.value.newName);
    } else {
      assert RulesOf(lines[..i]) + [] == RulesOf(lines[..i]);
    }
  }

  /** The body of the closure, between reading a file and writing it back. */
  method RenameContent(text: string, fncList: seq<string>) returns (content: string)
    requires AllSymbols(RulesOf(fncList))
    ensures content == Rename(text, RulesOf(fncList))
  {
    content := text;
    for i := 0 to |fncList|
      invariant content == Rename(text, RulesOf(fncList[..i]))
    {
      RenameOneLine(text, fncList, i);
      var line := fncList[i];
      TrimKeepsColumns(line);
      var fnc := Trim(line);
      if fnc == "" {
        continue;
      }
      var split := SplitWhitespace(fnc);
      fnc := split[0];
      var newName := if 1 < |split| then split[1] else FNC_PREFIX + fnc;

      var replaced := ReplaceAll(content, fnc, newName);
      if replaced.Owned? {
        content := replaced.text;
      }
    }
    assert fncList[..|fncList|] == fncList;
  }
}
