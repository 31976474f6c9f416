/** The allowlist of the binding generator, which has to name the renamed functions. */
module Bindings {
  import opened Words
  import opened Rules
  import opened WordLaws

  function AllowEntries(lines: seq<string>): (entries: seq<string>)
    ensures |entries| == |lines|
    ensures forall i :: 0 <= i < |lines| ==> entries[i] == FNC_PREFIX + lines[i]
  {
    seq(|lines|, i requires 0 <= i < |lines| => FNC_PREFIX + lines[i])
  }

  /** The loop of `main` over the same lines, untrimmed and unsplit. */
  method AllowList(fncList: seq<string>) returns (bindgen: seq<string>)
    ensures bindgen == AllowEntries(fncList)
  {
    bindgen := [];
    for i := 0 to |fncList|
      invariant bindgen == AllowEntries(fncList)[..i]
    {
      var newName := FNC_PREFIX + fncList[i];
      bindgen := bindgen + [newName];
    }
  }

  /** The allowlist entry of a line is the new name the renaming gives it exactly when the
      line is a bare name: no white space around it and no second column. */
  lemma EntryIsNewNameIff(line: string)
    requires ParseLine(line).Some?
    ensures FNC_PREFIX + line == ParseLine(line).value.newName <==> Solid(line)
  {
    SolidParts(FNC_PREFIX, line);
    if Solid(line) { SolidLine(line); }
  }

  lemma SpacedLine(line: string, i: nat, k: nat)
    requires i < |line| && IsWhitespace(line[i]) && k < |line| && !IsWhitespace(line[k])
    ensures ParseLine(line).Some? && FNC_PREFIX + line != ParseLine(line).value.newName
  {
    EntryIsNewNameIff(line);
  }

  const FIRST_LINE := "NAME##ToYRow_C rs_##NAME##ToYRow_C"

  /** The first line of the list has two columns, and its allowlist entry is not its new
      name. */
  lemma FirstLineIsNotAllowed()
    ensures ParseLine(FIRST_LINE).Some? && FNC_PREFIX + FIRST_LINE != ParseLine(FIRST_LINE).value.newName
  {
    SpacedLine(FIRST_LINE, 14, 0);
  }

  /** Every line is one bare word. */
  predicate BareWords(lines: seq<string>) {
    forall i :: 0 <= i < |lines| ==> IsWord(lines[i])
  }

  /** One rule for each line, giving the line the default prefix. */
  function PrefixRules(lines: seq<string>): (rules: seq<Rule>)
    ensures |rules| == |lines|
    ensures forall i :: 0 <= i < |lines| ==> rules[i] == Rule(lines[i], FNC_PREFIX + lines[i])
  {
    seq(|lines|, i requires 0 <= i < |lines| => Rule(lines[i], FNC_PREFIX + lines[i]))
  }

  lemma PrefixOneMore(init: seq<string>, last: string)
    ensures PrefixRules(init + [last]) == PrefixRules(init) + [Rule(last, FNC_PREFIX + last)]
  {
  }

  lemma WordAppends(init: seq<string>, last: string)
    requires IsWord(last) && RulesOf(init) == PrefixRules(init)
    ensures RulesOf(init + [last]) == PrefixRules(init + [last])
  {
    PrefixOneMore(init, last);
    WordIsSolid(last);
    SolidLine(last);
    RulesAppend(init, last, Rule(last, FNC_PREFIX + last));
  }

  lemma {:induction false} BareLines(lines: seq<string>)
    requires BareWords(lines)
    ensures RulesOf(lines) == PrefixRules(lines)
  {
    if lines != [] {
      var init, last := lines[..|lines| - 1], lines[|lines| - 1];
      BareLines(init);
      WordAppends(init, last);
      assert lines == init + [last];
    }
  }

  lemma BareRules(lines: seq<string>)
    requires BareWords(lines)
    ensures |RulesOf(lines)| == |lines|
    ensures forall i :: 0 <= i < |lines| ==> RulesOf(lines)[i] == Rule(lines[i], FNC_PREFIX + lines[i])
    ensures AllWords(RulesOf(lines)) && Prefixed(RulesOf(lines))
  {
    BareLines(lines);
    forall i | 0 <= i < |lines| ensures IsWord(FNC_PREFIX + lines[i]) {
      PrefixedWord(lines[i]);
    }
  }

  /** Which words of a renamed header are allowlisted: exactly those that took the place
      of a listed name, or were a new name already. */
  lemma {:induction false} AllowedIff(header: string, lines: seq<string>, k: nat)
    requires BareWords(lines) && Fresh(RulesOf(lines)) && k < |Runs(header)|
    ensures |Runs(Rename(header, RulesOf(lines)))| == |Runs(header)|
    ensures Runs(Rename(header, RulesOf(lines)))[k] in AllowEntries(lines)
       <==> Listed(RulesOf(lines), Runs(header)[k]) || IsNewName(RulesOf(lines), Runs(header)[k])
  {
    var rules, w := RulesOf(lines), Runs(header)[k];
    BareRules(lines);
    RenameMapsWords(header, rules);
    FreshRenames(rules, w);
    LookupListed(rules, w);
    AllowedNewNames(lines, Renamed(rules, w));
    if Listed(rules, w) { LookupIsNew(rules, w); }
  }

  lemma AllowedNewNames(lines: seq<string>, v: string)
    requires BareWords(lines)
    ensures v in AllowEntries(lines) <==> IsNewName(RulesOf(lines), v)
  {
    BareRules(lines);
    if IsNewName(RulesOf(lines), v) {
      var i :| 0 <= i < |lines| && RulesOf(lines)[i].newName == v;
      assert AllowEntries(lines)[i] == v;
    }
    if v in AllowEntries(lines) {
      var i :| 0 <= i < |lines| && AllowEntries(lines)[i] == v;
      assert RulesOf(lines)[i].newName == v;
    }
  }

  lemma LookupIsNew(rules: seq<Rule>, w: string)
    requires Listed(rules, w)
    ensures IsNewName(rules, Lookup(rules, w))
  {
    LookupListed(rules, w);
  }
}
