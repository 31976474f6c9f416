/** Replacement of sub-sequences, on sequences of any kind of item. `Subst` replaces
    one pattern from left to right without overlaps; `Fold` applies a list of rules one
    after the other; `Simultaneous` applies the whole list in a single pass. */
module Rewriting {

  datatype Rewrite<T> = Rewrite(lhs: seq<T>, rhs: seq<T>)

  function Subst<T(==)>(ts: seq<T>, p: seq<T>, n: seq<T>): seq<T>
    requires p != []
  {
    if ts == [] then []
    else if p <= ts then n + Subst(ts[|p|..], p, n)
    else [ts[0]] + Subst(ts[1..], p, n)
  }

  ghost predicate Occurs<T>(p: seq<T>, ts: seq<T>) {
    exists k :: 0 <= k <= |ts| && p <= ts[k..]
  }

  ghost predicate Usable<T>(rs: seq<Rewrite<T>>) {
    forall i :: 0 <= i < |rs| ==> rs[i].lhs != []
  }

  function Fold<T(==)>(ts: seq<T>, rs: seq<Rewrite<T>>): seq<T>
    requires Usable(rs)
  {
    if rs == [] then ts
    else
      var last := |rs| - 1;
      Subst(Fold(ts, rs[..last]), rs[last].lhs, rs[last].rhs)
  }

  /** The first rule whose pattern stands at the head of `ts`; `|rs|` when there is none. */
  function FirstMatch<T(==)>(ts: seq<T>, rs: seq<Rewrite<T>>): (i: nat)
    ensures i <= |rs|
    ensures i < |rs| ==> rs[i].lhs <= ts
    ensures forall j :: 0 <= j < i ==> !(rs[j].lhs <= ts)
  {
    if rs == [] || rs[0].lhs <= ts then 0 else 1 + FirstMatch(ts, rs[1..])
  }

  function Simultaneous<T(==)>(ts: seq<T>, rs: seq<Rewrite<T>>): seq<T>
    requires Usable(rs)
  {
    if ts == [] then []
    else
      var i := FirstMatch(ts, rs);
      if i < |rs| then rs[i].rhs + Simultaneous(ts[|rs[i].lhs|..], rs)
      else [ts[0]] + Simultaneous(ts[1..], rs)
  }

  // ---------------------------------------------------------------------------
  // Overlaps
  // ---------------------------------------------------------------------------

  /** `b`, laid over `a` with its first item at index `d` of `a`, meets `a` in at least
      one place and agrees with it wherever the two meet. */
  predicate Overlap<T(==)>(a: seq<T>, b: seq<T>, d: int) {
    && -|b| < d < |a|
    && forall k :: 0 <= k < |a| && 0 <= k - d < |b| ==> a[k] == b[k - d]
  }

  /** `a` and `b` can share items when both are found in one sequence. */
  ghost predicate Touches<T>(a: seq<T>, b: seq<T>) {
    exists d :: Overlap(a, b, d)
  }

  /** No two occurrences of `p` ever overlap. */
  ghost predicate Unbordered<T>(p: seq<T>) {
    forall d :: 0 < d < |p| ==> !Overlap(p, p, d)
  }

  lemma OverlapFlipped<T>(a: seq<T>, b: seq<T>, d: int)
    requires Overlap(a, b, d)
    ensures Overlap(b, a, -d)
  {
    forall k | 0 <= k < |b| && 0 <= k - -d < |a| ensures b[k] == a[k - -d] {
      var m := k + d;
      assert a[m] == b[m - d];
    }
  }

  lemma TouchesSymmetric<T>(a: seq<T>, b: seq<T>)
    requires Touches(a, b)
    ensures Touches(b, a)
  {
    var d :| Overlap(a, b, d);
    OverlapFlipped(a, b, d);
  }

  // ---------------------------------------------------------------------------
  // One rule
  // ---------------------------------------------------------------------------

  /** When no occurrence of `p` starts inside `a`, the items of `a` are copied. */
  lemma {:induction false} SubstSkip<T>(a: seq<T>, b: seq<T>, p: seq<T>, n: seq<T>)
    requires p != []
    requires forall k :: 0 <= k < |a| ==> !(p <= a[k..] + b)
    ensures Subst(a + b, p, n) == a + Subst(b, p, n)
  {
    if a == [] {
      assert a + b == b;
    } else {
      assert a[0..] + b == a + b;
      forall k | 0 <= k < |a[1..]| ensures !(p <= a[1..][k..] + b) {
        assert a[1..][k..] == a[k + 1..];
      }
      SubstSkip(a[1..], b, p, n);
      assert (a + b)[1..] == a[1..] + b;
    }
  }

  /** An occurrence that starts inside `a` overlaps `a`. */
  lemma StartsInside<T>(a: seq<T>, b: seq<T>, p: seq<T>, k: nat)
    requires p != [] && k < |a| && p <= a[k..] + b
    ensures Overlap(a, p, k)
  {
    forall m | 0 <= m < |a| && 0 <= m - k < |p| ensures a[m] == p[m - k] {
      assert a[m] == (a[k..] + b)[m - k];
    }
  }

  lemma SubstApart<T>(a: seq<T>, b: seq<T>, p: seq<T>, n: seq<T>)
    requires p != [] && !Touches(a, p)
    ensures Subst(a + b, p, n) == a + Subst(b, p, n)
  {
    forall k | 0 <= k < |a| ensures !(p <= a[k..] + b) {
      if p <= a[k..] + b { StartsInside(a, b, p, k); }
    }
    SubstSkip(a, b, p, n);
  }

  lemma SubstAbsent<T>(ts: seq<T>, p: seq<T>, n: seq<T>)
    requires p != [] && !Occurs(p, ts)
    ensures Subst(ts, p, n) == ts
  {
    forall k | 0 <= k < |ts| ensures !(p <= ts[k..] + []) {
      assert ts[k..] + [] == ts[k..];
    }
    SubstSkip(ts, [], p, n);
    assert ts + [] == ts;
  }

  lemma SubstHead<T>(p: seq<T>, rest: seq<T>, n: seq<T>)
    requires p != []
    ensures Subst(p + rest, p, n) == n + Subst(rest, p, n)
  {
    assert (p + rest)[|p|..] == rest;
  }

  // ---------------------------------------------------------------------------
  // A list of rules
  // ---------------------------------------------------------------------------

  /** No rule's replacement can take part in a match of a later rule, and patterns of
      different rules never overlap. Rules with the same pattern are allowed: the first
      of them wins. */
  ghost predicate Ordered<T>(rs: seq<Rewrite<T>>) {
    forall i, j :: 0 <= i < j < |rs| ==>
      && (rs[i].lhs == rs[j].lhs || !Touches(rs[i].lhs, rs[j].lhs))
      && !Touches(rs[i].rhs, rs[j].lhs)
  }

  lemma {:induction false} FirstMatchAppend<T>(ts: seq<T>, rs: seq<Rewrite<T>>, r: Rewrite<T>)
    ensures FirstMatch(ts, rs + [r]) ==
            if FirstMatch(ts, rs) < |rs| then FirstMatch(ts, rs)
            else if r.lhs <= ts then |rs| else |rs| + 1
  {
    var all := rs + [r];
    assert forall j :: 0 <= j < |rs| ==> all[j] == rs[j];
    assert all[|rs|] == r;
  }

  /** An occurrence of `p` can start at some item of `a`. */
  ghost predicate CanStart<T>(a: seq<T>, p: seq<T>) {
    exists d :: 0 <= d && Overlap(a, p, d)
  }

  lemma CanStartLater<T>(a: seq<T>, p: seq<T>)
    requires a != [] && CanStart(a[1..], p)
    ensures CanStart(a, p)
  {
    var d :| 0 <= d && Overlap(a[1..], p, d);
    forall k | 0 <= k < |a| && 0 <= k - (d + 1) < |p| ensures a[k] == p[k - (d + 1)] {
      assert a[1..][k - 1] == p[k - 1 - d];
    }
    assert Overlap(a, p, d + 1);
  }

  lemma NoMatchHere<T>(a: seq<T>, b: seq<T>, rs: seq<Rewrite<T>>)
    requires Usable(rs) && a != []
    requires forall i :: 0 <= i < |rs| ==> !CanStart(a, rs[i].lhs)
    ensures FirstMatch(a + b, rs) == |rs|
  {
    var i := FirstMatch(a + b, rs);
    if i < |rs| {
      assert a[0..] + b == a + b;
      StartsInside(a, b, rs[i].lhs, 0);
    }
  }

  lemma SimultaneousStep<T>(x: T, rest: seq<T>, rs: seq<Rewrite<T>>)
    requires Usable(rs) && FirstMatch([x] + rest, rs) == |rs|
    ensures Simultaneous([x] + rest, rs) == [x] + Simultaneous(rest, rs)
  {
    assert ([x] + rest)[1..] == rest;
  }

  lemma HeadAndTail<T>(a: seq<T>, b: seq<T>)
    requires a != []
    ensures a + b == [a[0]] + (a[1..] + b)
  {
  }

  /** Items that no pattern can start at are copied by the single pass. */
  lemma {:induction false} SimultaneousSkip<T>(a: seq<T>, b: seq<T>, rs: seq<Rewrite<T>>)
    requires Usable(rs)
    requires forall i :: 0 <= i < |rs| ==> !CanStart(a, rs[i].lhs)
    ensures Simultaneous(a + b, rs) == a + Simultaneous(b, rs)
  {
    if a == [] {
      assert a + b == b;
    } else {
      NoMatchHere(a, b, rs);
      forall i | 0 <= i < |rs| ensures !CanStart(a[1..], rs[i].lhs) {
        if CanStart(a[1..], rs[i].lhs) { CanStartLater(a, rs[i].lhs); }
      }
      SimultaneousSkip(a[1..], b, rs);
      HeadAndTail(a, b);
      SimultaneousStep(a[0], a[1..] + b, rs);
      HeadAndTail(a, Simultaneous(b, rs));
    }
  }

  /** The pass copies the first `n` items. */
  ghost predicate Copies<T>(ts: seq<T>, rs: seq<Rewrite<T>>, n: nat) {
    n == 0 || (ts != [] && FirstMatch(ts, rs) == |rs| && Copies(ts[1..], rs, n - 1))
  }

  /** The items of a pattern from `k` on, when no replacement can start among them, can only
      be found at the head of the output when they were copied from the head of the input. */
  lemma {:induction false} HeadWasThere<T>(ts: seq<T>, rs: seq<Rewrite<T>>, p: seq<T>, k: nat)
    requires Usable(rs) && k <= |p|
    requires forall i :: 0 <= i < |rs| ==> rs[i].rhs != []
    requires forall i, d :: 0 <= i < |rs| && d + k <= 0 ==> !Overlap(rs[i].rhs, p, d)
    requires p[k..] <= Simultaneous(ts, rs)
    ensures p[k..] <= ts && Copies(ts, rs, |p| - k)
    decreases |p| - k
  {
    if k < |p| {
      var i := FirstMatch(ts, rs);
      if i < |rs| {
        OverlapAtHead(rs[i].rhs, Simultaneous(ts[|rs[i].lhs|..], rs), p, k);
        assert false;
      }
      assert p[k..][0] == ts[0];
      assert p[k..][1..] == p[k + 1..];
      assert Simultaneous(ts, rs)[1..] == Simultaneous(ts[1..], rs);
      HeadWasThere(ts[1..], rs, p, k + 1);
      assert ts == [ts[0]] + ts[1..] && p[k..] == [p[k]] + p[k + 1..];
    }
  }

  lemma OverlapAtHead<T>(n: seq<T>, rest: seq<T>, p: seq<T>, k: nat)
    requires n != [] && k < |p| && p[k..] <= n + rest
    ensures Overlap(n, p, 0 - k)
  {
    forall m | 0 <= m < |n| && 0 <= m + k < |p| ensures n[m] == p[m + k] {
      assert p[k..][m] == (n + rest)[m];
    }
  }

  ghost predicate Proper<T>(rs: seq<Rewrite<T>>) {
    forall i :: 0 <= i < |rs| ==> rs[i].lhs != [] && rs[i].rhs != []
  }

  /** Adding one rule at the end of the list: the single pass with the longer list is the
      single pass with the shorter one followed by the new rule alone. */
  lemma {:induction false} SimultaneousAppend<T>(ts: seq<T>, rs: seq<Rewrite<T>>, r: Rewrite<T>)
    requires Proper(rs + [r]) && Ordered(rs + [r]) && Proper(rs) && r.lhs != []
    ensures Simultaneous(ts, rs + [r]) == Subst(Simultaneous(ts, rs), r.lhs, r.rhs)
    decreases |ts|
  {
    var all, p := rs + [r], r.lhs;
    assert forall i :: 0 <= i < |rs| ==> all[i] == rs[i];
    assert all[|rs|] == r;
    FirstMatchAppend(ts, rs, r);
    var i := FirstMatch(ts, rs);
    if ts == [] {
    } else if i < |rs| {
      SimultaneousAppend(ts[|rs[i].lhs|..], rs, r);
      SubstApart(rs[i].rhs, Simultaneous(ts[|rs[i].lhs|..], rs), p, r.rhs);
    } else if p <= ts {
      var rest := ts[|p|..];
      assert ts == p + rest;
      SimultaneousAppend(rest, rs, r);
      forall j | 0 <= j < |rs| ensures !CanStart(p, rs[j].lhs) {
        if Touches(p, rs[j].lhs) { TouchesSymmetric(p, rs[j].lhs); }
      }
      SimultaneousSkip(p, rest, rs);
      SubstHead(p, Simultaneous(rest, rs), r.rhs);
    } else {
      SimultaneousAppend(ts[1..], rs, r);
      if p <= Simultaneous(ts, rs) {
        assert p[0..] == p;
        HeadWasThere(ts, rs, p, 0);
        assert false;
      }
      assert Simultaneous(ts, rs)[1..] == Simultaneous(ts[1..], rs);
    }
  }

  /** Applying the rules one after the other is one simultaneous pass. */
  lemma {:induction false} FoldIsSimultaneous<T>(ts: seq<T>, rs: seq<Rewrite<T>>)
    requires Proper(rs) && Ordered(rs)
    ensures Fold(ts, rs) == Simultaneous(ts, rs)
  {
    if rs == [] {
      NoRules(ts);
    } else {
      var last := |rs| - 1;
      var init := rs[..last];
      assert rs == init + [rs[last]];
      FoldIsSimultaneous(ts, init);
      SimultaneousAppend(ts, init, rs[last]);
    }
  }

  lemma {:induction false} NoRules<T>(ts: seq<T>)
    ensures Simultaneous(ts, []) == ts
  {
    if ts != [] { NoRules(ts[1..]); }
  }

  // ---------------------------------------------------------------------------
  // What is left after the pass
  // ---------------------------------------------------------------------------

  lemma OccursLater<T>(p: seq<T>, ts: seq<T>)
    requires p != [] && Occurs(p, ts) && !(p <= ts)
    ensures ts != [] && Occurs(p, ts[1..])
  {
    var k :| 0 <= k <= |ts| && p <= ts[k..];
    assert ts[0..] == ts;
    assert ts[k..] == ts[1..][k - 1..];
  }

  lemma OccursBeyond<T>(a: seq<T>, b: seq<T>, p: seq<T>)
    requires p != [] && !Touches(a, p) && Occurs(p, a + b)
    ensures Occurs(p, b)
  {
    var k :| 0 <= k <= |a + b| && p <= (a + b)[k..];
    if k < |a| {
      assert (a + b)[k..] == a[k..] + b;
      StartsInside(a, b, p, k);
      assert false;
    }
    assert (a + b)[k..] == b[k - |a|..];
  }

  /** A pattern that no replacement overlaps does not occur in the output. */
  lemma {:induction false} NothingLeft<T>(ts: seq<T>, rs: seq<Rewrite<T>>, p: seq<T>)
    requires Proper(rs) && (exists j :: 0 <= j < |rs| && rs[j].lhs == p)
    requires forall i :: 0 <= i < |rs| ==> !Touches(rs[i].rhs, p)
    ensures !Occurs(p, Simultaneous(ts, rs))
  {
    if ts != [] && Occurs(p, Simultaneous(ts, rs)) {
      var i := FirstMatch(ts, rs);
      if i < |rs| {
        OccursBeyond(rs[i].rhs, Simultaneous(ts[|rs[i].lhs|..], rs), p);
        NothingLeft(ts[|rs[i].lhs|..], rs, p);
      } else {
        assert p[0..] == p;
        if p <= Simultaneous(ts, rs) {
          HeadWasThere(ts, rs, p, 0);
        } else {
          OccursLater(p, Simultaneous(ts, rs));
          assert Simultaneous(ts, rs)[1..] == Simultaneous(ts[1..], rs);
          NothingLeft(ts[1..], rs, p);
        }
      }
      assert false;
    }
  }

  /** Replacing changes a sequence as soon as the pattern is there and differs from its
      replacement. */
  lemma {:induction false} SubstChanges<T>(ts: seq<T>, p: seq<T>, n: seq<T>)
    requires p != [] && p != n && Occurs(p, ts)
    ensures Subst(ts, p, n) != ts
  {
    if |p| == |n| {
      SubstChangesItems(ts, p, n);
    } else {
      SubstChangesLength(ts, p, n);
    }
  }

  lemma {:induction false} SubstChangesItems<T>(ts: seq<T>, p: seq<T>, n: seq<T>)
    requires p != [] && p != n && |p| == |n| && Occurs(p, ts)
    ensures Subst(ts, p, n) != ts
  {
    if p <= ts {
      assert Subst(ts, p, n)[..|p|] == n;
    } else {
      OccursLater(p, ts);
      SubstChangesItems(ts[1..], p, n);
      assert Subst(ts, p, n)[1..] == Subst(ts[1..], p, n);
    }
  }

  lemma {:induction false} SubstChangesLength<T>(ts: seq<T>, p: seq<T>, n: seq<T>)
    requires p != [] && |p| != |n|
    ensures |p| < |n| ==> |ts| <= |Subst(ts, p, n)|
    ensures |n| < |p| ==> |Subst(ts, p, n)| <= |ts|
    ensures Occurs(p, ts) ==> |Subst(ts, p, n)| != |ts|
  {
    if ts == [] {
    } else if p <= ts {
      SubstChangesLength(ts[|p|..], p, n);
    } else {
      SubstChangesLength(ts[1..], p, n);
      if Occurs(p, ts) { OccursLater(p, ts); }
    }
  }

  /** A pass whose rules all change their pattern, and never shorten it, changes every
      sequence in which one of the patterns is found. */
  lemma {:induction false} SimultaneousChanges<T>(ts: seq<T>, rs: seq<Rewrite<T>>)
    requires Proper(rs) && forall i :: 0 <= i < |rs| ==> rs[i].lhs != rs[i].rhs && |rs[i].lhs| <= |rs[i].rhs|
    ensures |ts| <= |Simultaneous(ts, rs)|
    ensures forall j :: 0 <= j < |rs| && Occurs(rs[j].lhs, ts) ==> Simultaneous(ts, rs) != ts
  {
    if ts != [] {
      var i := FirstMatch(ts, rs);
      if i < |rs| {
        var p, n := rs[i].lhs, rs[i].rhs;
        SimultaneousChanges(ts[|p|..], rs);
        assert Simultaneous(ts, rs)[..|n|] == n;
        assert |p| == |n| ==> ts[..|n|] == p;
      } else {
        SimultaneousChanges(ts[1..], rs);
        forall j | 0 <= j < |rs| && Occurs(rs[j].lhs, ts) ensures Simultaneous(ts, rs) != ts {
          OccursLater(rs[j].lhs, ts);
          assert Simultaneous(ts, rs)[1..] == Simultaneous(ts[1..], rs);
        }
      }
    }
  }

  /** The items of `p` that stick out on either side when `p` is laid over `n` at `d`. */
  function Before<T>(p: seq<T>, n: seq<T>, d: int): seq<T>
    requires -|p| < d < |n|
  {
    if d < 0 then p[..-d] else []
  }

  function After<T>(p: seq<T>, n: seq<T>, d: int): seq<T>
    requires -|p| < d < |n|
  {
    if |n| < d + |p| then p[|n| - d..] else []
  }

  /** Two occurrences of patterns never overlap, of the same pattern or of different ones. */
  ghost predicate Separate<T>(rs: seq<Rewrite<T>>) {
    Ordered(rs) && forall i :: 0 <= i < |rs| ==> Unbordered(rs[i].lhs)
  }

  /** Beside that, rules with the same pattern agree. */
  ghost predicate Consistent<T>(rs: seq<Rewrite<T>>) {
    && Separate(rs)
    && (forall i, j :: 0 <= i < |rs| && 0 <= j < |rs| && rs[i].lhs == rs[j].lhs ==> rs[i].rhs == rs[j].rhs)
  }

  lemma PatternsApart<T>(rs: seq<Rewrite<T>>, i: nat, j: nat)
    requires Ordered(rs) && i < |rs| && j < |rs| && Touches(rs[i].lhs, rs[j].lhs)
    ensures rs[i].lhs == rs[j].lhs
  {
    TouchesSymmetric(rs[i].lhs, rs[j].lhs);
  }

  /** An unbordered pattern can only be laid over itself in its own place. */
  lemma OnlyInPlace<T>(p: seq<T>, d: int)
    requires Unbordered(p) && Overlap(p, p, d)
    ensures d == 0
  {
    OverlapFlipped(p, p, d);
  }

  lemma OverlapInside<T>(p: seq<T>, x: seq<T>, from: nat, to: nat, k: nat)
    requires from <= to <= |p| && x != [] && from + k < to
    requires x <= p[from + k..to] || (to == |p| && Overlap(p[from..to], x, k))
    ensures Overlap(p, x, from + k)
  {
    forall m | 0 <= m < |p| && 0 <= m - (from + k) < |x| ensures p[m] == x[m - (from + k)] {
      if x <= p[from + k..to] {
        assert p[m] == p[from + k..to][m - from - k];
      } else {
        assert p[from..to][m - from] == x[m - from - k];
      }
    }
  }

  /** A match that starts in `b` ends in it, or reaches over to the `q` that follows. */
  lemma ReachesOver<T>(b: seq<T>, q: seq<T>, a: seq<T>, x: seq<T>, k: nat)
    requires k < |b| && q != [] && x != [] && x <= b[k..] + (q + a)
    ensures |x| <= |b| - k ==> x <= b[k..]
    ensures |b| - k < |x| ==> Overlap(q, x, k - |b|)
  {
    var all, e := b[k..] + (q + a), |b| - k;
    if |x| <= e {
      assert x == all[..|x|] == b[k..][..|x|];
    } else {
      forall n | 0 <= n < |q| && 0 <= n - (k - |b|) < |x| ensures q[n] == x[n - (k - |b|)] {
        assert all[n + e] == q[n];
      }
    }
  }

  /** A match that starts in front of `q` overlaps `p` or `q`, out of its own place. */
  lemma StartsBefore<T>(p: seq<T>, n: seq<T>, q: seq<T>, d: int, x: seq<T>, k: nat)
    requires q != [] && x != [] && -|p| < d < |n| && k < |Before(p, n, d)|
    requires x <= Before(p, n, d)[k..] + (q + After(p, n, d))
    requires Unbordered(q)
    ensures (x != p && Touches(p, x)) || (x != q && Touches(q, x))
  {
    var b := Before(p, n, d);
    ReachesOver(b, q, After(p, n, d), x, k);
    if |x| <= |b| - k {
      assert b[k..] == p[0 + k..-d];
      OverlapInside(p, x, 0, -d, k);
    } else if x == q {
      OnlyInPlace(q, k - |b|);
    }
  }

  /** No pattern starts in the piece of `p` in front of the pattern `q`. */
  lemma NoneStartsBefore<T>(rs: seq<Rewrite<T>>, i: nat, j: nat, d: int, m: nat, k: nat)
    requires Usable(rs) && Consistent(rs) && i < |rs| && j < |rs| && m < |rs|
    requires -|rs[j].lhs| < d < |rs[i].rhs| && k < |Before(rs[j].lhs, rs[i].rhs, d)|
    ensures !(rs[m].lhs <= Before(rs[j].lhs, rs[i].rhs, d)[k..] + (rs[i].lhs + After(rs[j].lhs, rs[i].rhs, d)))
  {
    if rs[m].lhs <= Before(rs[j].lhs, rs[i].rhs, d)[k..] + (rs[i].lhs + After(rs[j].lhs, rs[i].rhs, d)) {
      StartsBefore(rs[j].lhs, rs[i].rhs, rs[i].lhs, d, rs[m].lhs, k);
      if Touches(rs[i].lhs, rs[m].lhs) { PatternsApart(rs, i, m); }
      if Touches(rs[j].lhs, rs[m].lhs) { PatternsApart(rs, j, m); }
    }
  }

  /** No pattern can start in the piece of `p` behind it. */
  lemma NoneStartsAfter<T>(rs: seq<Rewrite<T>>, j: nat, y: nat, m: nat)
    requires Usable(rs) && Consistent(rs) && j < |rs| && m < |rs| && 0 < y <= |rs[j].lhs|
    ensures !CanStart(rs[j].lhs[y..], rs[m].lhs)
  {
    var p, x := rs[j].lhs, rs[m].lhs;
    if CanStart(p[y..], x) {
      var k :| 0 <= k && Overlap(p[y..], x, k);
      assert p[y..] == p[y..|p|];
      OverlapInside(p, x, y, |p|, k);
      PatternsApart(rs, j, m);
      OnlyInPlace(p, y + k);
    }
  }

  ghost predicate NoneStarts<T>(b: seq<T>, rest: seq<T>, rs: seq<Rewrite<T>>) {
    b == [] || (FirstMatch(b + rest, rs) == |rs| && NoneStarts(b[1..], rest, rs))
  }

  lemma {:induction false} CopyWhereNoneStarts<T>(b: seq<T>, rest: seq<T>, rs: seq<Rewrite<T>>)
    requires Usable(rs) && NoneStarts(b, rest, rs)
    ensures Simultaneous(b + rest, rs) == b + Simultaneous(rest, rs)
  {
    if b == [] {
      assert b + rest == rest;
    } else {
      CopyWhereNoneStarts(b[1..], rest, rs);
      HeadAndTail(b, rest);
      SimultaneousStep(b[0], b[1..] + rest, rs);
      HeadAndTail(b, Simultaneous(rest, rs));
    }
  }

  lemma {:induction false} BeforeIsCopied<T>(rs: seq<Rewrite<T>>, i: nat, j: nat, d: int, k: nat)
    requires Usable(rs) && Consistent(rs) && i < |rs| && j < |rs|
    requires -|rs[j].lhs| < d < |rs[i].rhs| && k <= |Before(rs[j].lhs, rs[i].rhs, d)|
    ensures NoneStarts(Before(rs[j].lhs, rs[i].rhs, d)[k..], rs[i].lhs + After(rs[j].lhs, rs[i].rhs, d), rs)
    decreases |Before(rs[j].lhs, rs[i].rhs, d)| - k
  {
    var b, rest := Before(rs[j].lhs, rs[i].rhs, d), rs[i].lhs + After(rs[j].lhs, rs[i].rhs, d);
    if k < |b| {
      var m := FirstMatch(b[k..] + rest, rs);
      if m < |rs| { NoneStartsBefore(rs, i, j, d, m, k); }
      BeforeIsCopied(rs, i, j, d, k + 1);
      assert b[k..][1..] == b[k + 1..];
    }
  }

  lemma AfterIsCopied<T>(rs: seq<Rewrite<T>>, j: nat, n: seq<T>, d: int)
    requires Usable(rs) && Consistent(rs) && j < |rs| && -|rs[j].lhs| < d < |n|
    ensures Simultaneous(After(rs[j].lhs, n, d), rs) == After(rs[j].lhs, n, d)
  {
    var a := After(rs[j].lhs, n, d);
    if a != [] {
      forall m | 0 <= m < |rs| ensures !CanStart(a, rs[m].lhs) {
        NoneStartsAfter(rs, j, |n| - d, m);
      }
      SimultaneousSkip(a, [], rs);
      assert a + [] == a;
    }
  }

  lemma PatternIsReplaced<T>(rs: seq<Rewrite<T>>, i: nat, rest: seq<T>)
    requires Usable(rs) && Consistent(rs) && i < |rs|
    ensures Simultaneous(rs[i].lhs + rest, rs) == rs[i].rhs + Simultaneous(rest, rs)
  {
    var q := rs[i].lhs;
    var m := FirstMatch(q + rest, rs);
    assert m <= i;
    SameRule(q + rest, rs[m], rs[i]);
    PatternsApart(rs, m, i);
    assert (q + rest)[|q|..] == rest;
  }

  /** If the replacement of rule `i` overlaps the pattern of rule `j`, some sequence still
      holds that pattern after the pass: the pattern of `i`, with the pieces of the pattern
      of `j` that stick out on either side of the replacement. */
  lemma PatternReturns<T>(rs: seq<Rewrite<T>>, i: nat, j: nat, d: int)
    requires Proper(rs) && Consistent(rs) && i < |rs| && j < |rs| && Overlap(rs[i].rhs, rs[j].lhs, d)
    ensures var b, a := Before(rs[j].lhs, rs[i].rhs, d), After(rs[j].lhs, rs[i].rhs, d);
      && Simultaneous(b + (rs[i].lhs + a), rs) == b + (rs[i].rhs + a)
      && Occurs(rs[j].lhs, b + (rs[i].rhs + a))
  {
    var b, a := Before(rs[j].lhs, rs[i].rhs, d), After(rs[j].lhs, rs[i].rhs, d);
    BeforeIsCopied(rs, i, j, d, 0);
    assert b[0..] == b;
    CopyWhereNoneStarts(b, rs[i].lhs + a, rs);
    PatternIsReplaced(rs, i, a);
    AfterIsCopied(rs, j, rs[i].rhs, d);
    PatternIsThere(rs[j].lhs, rs[i].rhs, d);
  }

  /** Where the pattern comes to stand among the three pieces. */
  function Offset(d: int): nat {
    if d < 0 then 0 else d
  }

  lemma ItemIsThere<T>(p: seq<T>, n: seq<T>, d: int, m: nat)
    requires Overlap(n, p, d) && m < |p|
    ensures Offset(d) + m < |Before(p, n, d) + (n + After(p, n, d))|
    ensures (Before(p, n, d) + (n + After(p, n, d)))[Offset(d) + m] == p[m]
  {
    var k := m + d;
    if 0 <= k < |n| {
      assert n[k] == p[k - d];
    } else if |n| <= k {
      assert After(p, n, d)[k - |n|] == p[m];
    }
  }

  lemma PrefixAt<T>(p: seq<T>, ts: seq<T>, at: nat)
    requires at + |p| <= |ts| && forall m :: 0 <= m < |p| ==> ts[at + m] == p[m]
    ensures Occurs(p, ts)
  {
    assert p == ts[at..][..|p|];
    assert p <= ts[at..];
  }

  lemma PatternIsThere<T>(p: seq<T>, n: seq<T>, d: int)
    requires p != [] && Overlap(n, p, d)
    ensures Occurs(p, Before(p, n, d) + (n + After(p, n, d)))
  {
    var ts, at := Before(p, n, d) + (n + After(p, n, d)), Offset(d);
    ItemIsThere(p, n, d, |p| - 1);
    forall m | 0 <= m < |p| ensures ts[at + m] == p[m] {
      ItemIsThere(p, n, d, m);
    }
    PrefixAt(p, ts, at);
  }

  // ---------------------------------------------------------------------------
  // The way back
  // ---------------------------------------------------------------------------

  /** Each rule turned round. */
  function Reversed<T>(rs: seq<Rewrite<T>>): (undo: seq<Rewrite<T>>)
    ensures |undo| == |rs| && forall i :: 0 <= i < |rs| ==> undo[i] == Rewrite(rs[i].rhs, rs[i].lhs)
  {
    seq(|rs|, i requires 0 <= i < |rs| => Rewrite(rs[i].rhs, rs[i].lhs))
  }

  /** `p` stands at the head and the pass copies it. */
  ghost predicate FreeHead<T>(ts: seq<T>, rs: seq<Rewrite<T>>, p: seq<T>) {
    p <= ts && Copies(ts, rs, |p|)
  }

  lemma PrefixAndRest<T>(p: seq<T>, ts: seq<T>)
    requires p <= ts
    ensures ts == p + ts[|p|..]
  {
  }

  lemma PrefixMore<T>(x: T, rest: seq<T>, p: seq<T>)
    requires p <= rest
    ensures [x] + p <= [x] + rest
  {
    PrefixAndRest(p, rest);
    assert [x] + rest == ([x] + p) + rest[|p|..];
  }

  lemma CopiesMore<T>(x: T, rest: seq<T>, p: seq<T>, rs: seq<Rewrite<T>>)
    requires FirstMatch([x] + rest, rs) == |rs| && FreeHead(rest, rs, p)
    ensures FreeHead([x] + rest, rs, [x] + p)
  {
    PrefixMore(x, rest, p);
    assert ([x] + rest)[1..] == rest;
  }

  lemma {:induction false} CopiedOut<T>(a: seq<T>, b: seq<T>, rs: seq<Rewrite<T>>)
    requires Usable(rs) && Copies(a + b, rs, |a|)
    ensures Simultaneous(a + b, rs) == a + Simultaneous(b, rs)
  {
    if a == [] {
      assert a + b == b;
    } else {
      HeadAndTail(a, b);
      assert (a + b)[1..] == a[1..] + b;
      CopiedOut(a[1..], b, rs);
      SimultaneousStep(a[0], a[1..] + b, rs);
      HeadAndTail(a, Simultaneous(b, rs));
    }
  }

  /** A replaced head is found again on the way back. */
  lemma ReplacedHead<T>(ts: seq<T>, rs: seq<Rewrite<T>>, i: nat)
    requires Proper(rs) && Separate(Reversed(rs)) && ts != [] && i == FirstMatch(ts, rs) < |rs|
    ensures var m := FirstMatch(Simultaneous(ts, rs), Reversed(rs));
      m < |rs| && rs[m].rhs == rs[i].rhs
  {
    var undo, u := Reversed(rs), Simultaneous(ts, rs);
    var m := FirstMatch(u, undo);
    assert undo[i].lhs <= u;
    SameRule(u, undo[m], undo[i]);
    PatternsApart(undo, m, i);
  }

  /** Behind a copied item, only a copied replacement can be found on the way back. */
  lemma FoundIsFree<T>(ts: seq<T>, rs: seq<Rewrite<T>>, m: nat)
    requires Proper(rs) && Separate(Reversed(rs)) && m < |rs| && ts != [] && FirstMatch(ts, rs) == |rs|
    requires rs[m].rhs <= Simultaneous(ts, rs)
    ensures FreeHead(ts, rs, rs[m].rhs)
  {
    var p, undo := rs[m].rhs, Reversed(rs);
    forall i, d | 0 <= i < |rs| && d <= -1 ensures !Overlap(rs[i].rhs, p, d) {
      if Overlap(undo[i].lhs, undo[m].lhs, d) {
        PatternsApart(undo, i, m);
        OnlyInPlace(p, d);
      }
    }
    assert Simultaneous(ts, rs)[1..] == Simultaneous(ts[1..], rs);
    HeadWasThere(ts[1..], rs, p, 1);
    assert p == [p[0]] + p[1..] && ts == [ts[0]] + ts[1..];
  }

  /** And it is found. */
  lemma FreeIsFound<T>(ts: seq<T>, rs: seq<Rewrite<T>>, j: nat)
    requires Proper(rs) && Separate(Reversed(rs)) && j < |rs| && FreeHead(ts, rs, rs[j].rhs)
    ensures var m := FirstMatch(Simultaneous(ts, rs), Reversed(rs));
      m < |rs| && rs[m].rhs == rs[j].rhs
  {
    var undo, u := Reversed(rs), Simultaneous(ts, rs);
    assert ts == rs[j].rhs + ts[|rs[j].rhs|..];
    CopiedOut(rs[j].rhs, ts[|rs[j].rhs|..], rs);
    assert undo[j].lhs <= u;
    var m := FirstMatch(u, undo);
    SameRule(u, undo[m], undo[j]);
    PatternsApart(undo, m, j);
  }

  // ---------------------------------------------------------------------------
  // Order of the rules
  // ---------------------------------------------------------------------------

  /** `Ordered`, whatever order the rules are put in: different rules have patterns that
      never overlap, and no replacement overlaps the pattern of another rule in the list
      (nor its own pattern, when the rule is listed twice). */
  ghost predicate Independent<T>(rs: multiset<Rewrite<T>>) {
    forall r, s :: r in rs && s in rs && (r != s || 1 < rs[r]) ==>
      && (r != s ==> !Touches(r.lhs, s.lhs))
      && !Touches(r.rhs, s.lhs)
  }

  lemma ListedTwice<T>(rs: seq<T>, i: nat, j: nat)
    requires i < j < |rs| && rs[i] == rs[j]
    ensures 1 < multiset(rs)[rs[i]]
  {
    assert rs == rs[..j] + [rs[j]] + rs[j + 1..];
    assert rs[i] in rs[..j];
    assert multiset(rs) == multiset(rs[..j]) + multiset([rs[j]]) + multiset(rs[j + 1..]);
  }

  lemma IndependentIsOrdered<T>(rs: seq<Rewrite<T>>)
    requires Independent(multiset(rs))
    ensures Ordered(rs)
  {
    forall i, j | 0 <= i < j < |rs|
      ensures rs[i].lhs == rs[j].lhs || !Touches(rs[i].lhs, rs[j].lhs)
      ensures !Touches(rs[i].rhs, rs[j].lhs)
    {
      assert rs[i] in multiset(rs) && rs[j] in multiset(rs);
      if rs[i] == rs[j] { ListedTwice(rs, i, j); }
    }
  }

  /** At most one rule applies at any place, so the list and any reordering of it agree. */
  lemma SameRule<T>(ts: seq<T>, r: Rewrite<T>, s: Rewrite<T>)
    requires r.lhs != [] && s.lhs != [] && r.lhs <= ts && s.lhs <= ts
    ensures Touches(r.lhs, s.lhs)
  {
    assert Overlap(r.lhs, s.lhs, 0) by {
      forall k | 0 <= k < |r.lhs| && 0 <= k - 0 < |s.lhs| ensures r.lhs[k] == s.lhs[k - 0] {
        assert r.lhs[k] == ts[k] == s.lhs[k];
      }
    }
  }

  lemma {:induction false} SameFirstMatch<T>(ts: seq<T>, rs: seq<Rewrite<T>>, ss: seq<Rewrite<T>>)
    requires Proper(rs) && Proper(ss) && Independent(multiset(rs)) && multiset(rs) == multiset(ss)
    ensures FirstMatch(ts, rs) < |rs| <==> FirstMatch(ts, ss) < |ss|
    ensures FirstMatch(ts, rs) < |rs| ==> rs[FirstMatch(ts, rs)] == ss[FirstMatch(ts, ss)]
  {
    var i, j := FirstMatch(ts, rs), FirstMatch(ts, ss);
    assert forall r :: r in rs ==> r in multiset(rs);
    assert forall r :: r in ss ==> r in multiset(ss);
    if i < |rs| {
      assert rs[i] in multiset(ss) && rs[i] in ss;
    }
    if j < |ss| {
      assert ss[j] in multiset(rs) && ss[j] in rs;
    }
    if i < |rs| && j < |ss| {
      SameRule(ts, rs[i], ss[j]);
      assert rs[i] in multiset(rs) && ss[j] in multiset(rs);
    }
  }

  lemma {:induction false} SimultaneousReordered<T>(ts: seq<T>, rs: seq<Rewrite<T>>, ss: seq<Rewrite<T>>)
    requires Proper(rs) && Proper(ss) && Independent(multiset(rs)) && multiset(rs) == multiset(ss)
    ensures Simultaneous(ts, rs) == Simultaneous(ts, ss)
    decreases |ts|
  {
    if ts != [] {
      SameFirstMatch(ts, rs, ss);
      var i := FirstMatch(ts, rs);
      SimultaneousReordered(if i < |rs| then ts[|rs[i].lhs|..] else ts[1..], rs, ss);
    }
  }

  lemma {:induction false} FoldReordered<T>(ts: seq<T>, rs: seq<Rewrite<T>>, ss: seq<Rewrite<T>>)
    requires Proper(rs) && Proper(ss) && Independent(multiset(rs)) && multiset(rs) == multiset(ss)
    ensures Fold(ts, rs) == Fold(ts, ss)
  {
    IndependentIsOrdered(rs);
    IndependentIsOrdered(ss);
    FoldIsSimultaneous(ts, rs);
    FoldIsSimultaneous(ts, ss);
    SimultaneousReordered(ts, rs, ss);
  }
}
