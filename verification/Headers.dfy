/** The request builder of the HTTP client, and the merge of one header map into another.
    A header map gives each name its values, in order; there is always at least one. */
module Headers {

  import opened Wrappers

  /** A header name, in its normalized lower-case form. */
  type Name = string

  type Bytes = seq<bv8>

  type Value = Bytes

  type HeaderMap = map<Name, seq<Value>>

  ghost predicate Valid(m: HeaderMap) {
    forall k :: k in m ==> m[k] != []
  }

  // ---------------------------------------------------------------------------
  // The flattened form
  // ---------------------------------------------------------------------------

  /** One item of the iteration over a header map: the first value of a name comes with
      the name, the further ones without. */
  datatype Item = Item(key: Option<Name>, value: Value)

  function Further(vs: seq<Value>): (items: seq<Item>)
    ensures |items| == |vs| && forall i :: 0 <= i < |vs| ==> items[i] == Item(None, vs[i])
  {
    seq(|vs|, i requires 0 <= i < |vs| => Item(None, vs[i]))
  }

  function Group(k: Name, vs: seq<Value>): seq<Item>
    requires vs != []
  {
    [Item(Some(k), vs[0])] + Further(vs[1..])
  }

  /** The names of `m`, each once, in the order they are visited. */
  ghost predicate IsOrder(order: seq<Name>, m: HeaderMap) {
    && (forall i, j :: 0 <= i < j < |order| ==> order[i] != order[j])
    && (forall k :: k in order <==> k in m)
  }

  function Flatten(m: HeaderMap, order: seq<Name>): seq<Item>
    requires forall i :: 0 <= i < |order| ==> order[i] in m && m[order[i]] != []
  {
    if order == [] then []
    else Flatten(m, order[..|order| - 1]) + Group(order[|order| - 1], m[order[|order| - 1]])
  }

  ghost predicate IsFlattening(items: seq<Item>, m: HeaderMap)
    requires Valid(m)
  {
    exists order :: IsOrder(order, m) && items == Flatten(m, order)
  }

  /** The empty map has no items. */
  lemma NothingFlattened()
    ensures Valid(map[]) && IsFlattening([], map[])
  {
    assert IsOrder([], map[]);
  }

  lemma {:induction false} SameFlatten(m: HeaderMap, n: HeaderMap, order: seq<Name>)
    requires forall i :: 0 <= i < |order| ==> order[i] in m && order[i] in n && m[order[i]] == n[order[i]] != []
    ensures Flatten(m, order) == Flatten(n, order)
  {
    if order != [] { SameFlatten(m, n, order[..|order| - 1]); }
  }

  lemma OrderGrows(order: seq<Name>, m: HeaderMap, k: Name, vs: seq<Value>)
    requires IsOrder(order, m) && k !in m
    ensures IsOrder(order + [k], m[k := vs])
  {
  }

  lemma FlattenGrows(m: HeaderMap, order: seq<Name>, k: Name, vs: seq<Value>)
    requires Valid(m) && IsOrder(order, m) && k !in m && vs != []
    ensures Flatten(m[k := vs], order + [k]) == Flatten(m, order) + Group(k, vs)
  {
    assert (order + [k])[..|order|] == order;
    SameFlatten(m, m[k := vs], order);
  }

  /** A further name can always come last: its first value with the name, the others
      without. So every order of the names is one in which the items may come. */
  lemma FlatteningGrows(m: HeaderMap, items: seq<Item>, k: Name, first: Value, further: seq<Value>, more: seq<Item>)
    requires Valid(m) && IsFlattening(items, m) && k !in m
    requires |more| == |further| && forall i :: 0 <= i < |more| ==> more[i] == Item(None, further[i])
    ensures Valid(m[k := [first] + further])
    ensures IsFlattening(items + ([Item(Some(k), first)] + more), m[k := [first] + further])
  {
    var order :| IsOrder(order, m) && items == Flatten(m, order);
    var vs := [first] + further;
    assert vs[1..] == further && Further(further) == more;
    OrderGrows(order, m, k, vs);
    FlattenGrows(m, order, k, vs);
  }

  // ---------------------------------------------------------------------------
  // The merge loop
  // ---------------------------------------------------------------------------

  /** The map being filled and the entry the last named item left behind. */
  datatype Merge = Merge(headers: HeaderMap, prevEntry: Option<Name>)

  /** One turn of the loop; `None` is the panic of the unreachable arm. */
  function Turn(s: Merge, item: Item): Option<Merge> {
    match item.key
    case Some(k) => Some(Merge(s.headers[k := [item.value]], Some(k)))
    case None =>
      match s.prevEntry
      case Some(k) =>
        if k in s.headers then Some(s.(headers := s.headers[k := s.headers[k] + [item.value]])) else None
      case None => None
  }

  function Turns(s: Merge, items: seq<Item>): Option<Merge> {
    if items == [] then Some(s)
    else
      var before := Turns(s, items[..|items| - 1]);
      if before.None? then None else Turn(before.value, items[|items| - 1])
  }

  lemma {:induction false} TurnsAppend(s: Merge, a: seq<Item>, b: seq<Item>)
    ensures Turns(s, a + b) == if Turns(s, a).None? then None else Turns(Turns(s, a).value, b)
  {
    if b == [] {
      assert a + b == a;
    } else {
      TurnsAppend(s, a, b[..|b| - 1]);
      assert (a + b)[..|a + b| - 1] == a + b[..|b| - 1];
    }
  }

  /** After every prefix of a group the cursor stands on its name, the name holds exactly
      the values consumed so far, and no other name has been touched. */
  lemma {:induction false} GroupPrefix(s: Merge, k: Name, vs: seq<Value>, n: nat)
    requires vs != [] && 1 <= n <= |vs|
    ensures Turns(s, Group(k, vs)[..n]) == Some(Merge(s.headers[k := vs[..n]], Some(k)))
  {
    var items := Group(k, vs);
    if n == 1 {
      assert items[..1] == [Item(Some(k), vs[0])] && vs[..1] == [vs[0]];
      assert items[..1][..0] == [];
    } else {
      GroupPrefix(s, k, vs, n - 1);
      assert items[..n][..n - 1] == items[..n - 1];
      assert items[n - 1] == Item(None, vs[n - 1]);
      assert items[..n][n - 1] == items[n - 1];
      assert vs[..n] == vs[..n - 1] + [vs[n - 1]];
      assert s.headers[k := vs[..n - 1]][k := vs[..n]] == s.headers[k := vs[..n]];
    }
  }

  function Restrict(m: HeaderMap, names: seq<Name>): HeaderMap {
    map k | k in m && k in names :: m[k]
  }

  function LastOf(names: seq<Name>, before: Option<Name>): Option<Name> {
    if names == [] then before else Some(names[|names| - 1])
  }

  lemma RestrictOneMore(base: HeaderMap, m: HeaderMap, names: seq<Name>, k: Name)
    requires k in m
    ensures (base + Restrict(m, names))[k := m[k]] == base + Restrict(m, names + [k])
  {
  }

  /** The loop over whole groups overrides the names visited so far. */
  lemma {:induction false} TurnsFlatten(s: Merge, m: HeaderMap, order: seq<Name>)
    requires forall i :: 0 <= i < |order| ==> order[i] in m && m[order[i]] != []
    ensures Turns(s, Flatten(m, order)) == Some(Merge(s.headers + Restrict(m, order), LastOf(order, s.prevEntry)))
  {
    if order == [] {
      assert s.headers + Restrict(m, order) == s.headers;
    } else {
      var init, k := order[..|order| - 1], order[|order| - 1];
      var vs := m[k];
      TurnsFlatten(s, m, init);
      TurnsAppend(s, Flatten(m, init), Group(k, vs));
      GroupPrefix(Turns(s, Flatten(m, init)).value, k, vs, |vs|);
      assert Group(k, vs)[..|vs|] == Group(k, vs) && vs[..|vs|] == vs;
      RestrictOneMore(s.headers, m, init, k);
      assert order == init + [k];
    }
  }

  /** What the loop makes of the headers; `None` when it panics. */
  function Merged(base: HeaderMap, items: seq<Item>): Option<HeaderMap> {
    match Turns(Merge(base, None), items)
    case None => None
    case Some(s) => Some(s.headers)
  }

  /** The merge is the key-wise override, for every starting map and every order in which
      the incoming names are visited; the arm for a value without a name is never taken. */
  lemma MergeIsOverride(base: HeaderMap, m: HeaderMap, items: seq<Item>)
    requires Valid(m) && IsFlattening(items, m)
    ensures Merged(base, items) == Some(base + m)
  {
    var order :| IsOrder(order, m) && items == Flatten(m, order);
    TurnsFlatten(Merge(base, None), m, order);
    assert Restrict(m, order) == m;
  }

  /** The first `n` items are the groups before the one of index `g`, and `c` items of it. */
  ghost predicate Inside(m: HeaderMap, order: seq<Name>, n: nat, g: nat, c: nat)
    requires forall i :: 0 <= i < |order| ==> order[i] in m && m[order[i]] != []
  {
    && n <= |Flatten(m, order)| && g < |order| && 1 <= c <= |m[order[g]]|
    && Flatten(m, order)[..n] == Flatten(m, order[..g]) + Group(order[g], m[order[g]])[..c]
  }

  /** Stopped anywhere inside the stream, the loop has not panicked; the cursor stands on
      the name of the latest named item; that name holds exactly what has been consumed of
      its group, and the other names hold the groups before it or their old values. */
  lemma CursorIsSafe(base: HeaderMap, m: HeaderMap, order: seq<Name>, n: nat)
    requires forall k :: k in m ==> m[k] != []
    requires forall i, j :: 0 <= i < j < |order| ==> order[i] != order[j]
    requires forall k :: k in order <==> k in m
    requires 0 < n <= |Flatten(m, order)|
    ensures exists g: nat, c: nat ::
      && g < |order| && 1 <= c <= |m[order[g]]|
      && Flatten(m, order)[..n] == Flatten(m, order[..g]) + Group(order[g], m[order[g]])[..c]
      && Turns(Merge(base, None), Flatten(m, order)[..n])
         == Some(Merge((base + Restrict(m, order[..g]))[order[g] := m[order[g]][..c]], Some(order[g])))
  {
    var g, c := Locate(m, order, n);
    var init, group := Flatten(m, order[..g]), Group(order[g], m[order[g]]);
    TurnsFlatten(Merge(base, None), m, order[..g]);
    TurnsAppend(Merge(base, None), init, group[..c]);
    GroupPrefix(Turns(Merge(base, None), init).value, order[g], m[order[g]], c);
    assert Inside(m, order, n, g, c);
  }

  lemma {:induction false} Locate(m: HeaderMap, order: seq<Name>, n: nat) returns (g: nat, c: nat)
    requires forall i :: 0 <= i < |order| ==> order[i] in m && m[order[i]] != []
    requires 0 < n <= |Flatten(m, order)|
    ensures Inside(m, order, n, g, c)
  {
    var last := |order| - 1;
    var init := order[..last];
    if n <= |Flatten(m, init)| {
      g, c := Locate(m, init, n);
      assert init[..g] == order[..g];
      assert Flatten(m, order)[..n] == Flatten(m, init)[..n];
    } else {
      g, c := last, n - |Flatten(m, init)|;
      assert Flatten(m, order)[..n] == Flatten(m, init) + Group(order[last], m[order[last]])[..c];
    }
  }

  /** Which way the incoming map is walked makes no difference, and the loop never panics. */
  lemma OrderDoesNotMatter(base: HeaderMap, m: HeaderMap, items: seq<Item>, others: seq<Item>)
    requires Valid(m) && IsFlattening(items, m) && IsFlattening(others, m)
    ensures Merged(base, items).Some? && Merged(base, items) == Merged(base, others)
  {
    MergeIsOverride(base, m, items);
    MergeIsOverride(base, m, others);
  }

  lemma OverrideAssociates(base: HeaderMap, a: HeaderMap, b: HeaderMap)
    ensures (base + a) + b == base + (a + b)
  {
  }

  /** Two merges in a row are one merge of the overridden map. */
  lemma MergesCompose(
    base: HeaderMap, a: HeaderMap, b: HeaderMap, fromA: seq<Item>, fromB: seq<Item>, fromAB: seq<Item>
  )
    requires Valid(a) && Valid(b)
    requires IsFlattening(fromA, a) && IsFlattening(fromB, b) && IsFlattening(fromAB, a + b)
    ensures Merged(base, fromA).Some?
    ensures Merged(Merged(base, fromA).value, fromB) == Merged(base, fromAB)
  {
    MergeIsOverride(base, a, fromA);
    MergeIsOverride(base + a, b, fromB);
    MergeIsOverride(base, a + b, fromAB);
    OverrideAssociates(base, a, b);
  }

  /** The same merge twice, in whatever orders, is that merge once. */
  lemma MergeAgain(base: HeaderMap, a: HeaderMap, fromA: seq<Item>, againA: seq<Item>)
    requires Valid(a) && IsFlattening(fromA, a) && IsFlattening(againA, a)
    ensures Merged(base, fromA).Some?
    ensures Merged(Merged(base, fromA).value, againA) == Merged(base, fromA)
  {
    MergeIsOverride(base, a, fromA);
    MergeIsOverride(base + a, a, againA);
    assert (base + a) + a == base + a;
  }

  /** Merging into a request without headers rebuilds the incoming map. */
  lemma MergeIntoEmpty(a: HeaderMap, fromA: seq<Item>)
    requires Valid(a) && IsFlattening(fromA, a)
    ensures Merged(map[], fromA) == Some(a)
  {
    MergeIsOverride(map[], a, fromA);
    assert map[] + a == a;
  }

  // ---------------------------------------------------------------------------
  // Counting values
  // ---------------------------------------------------------------------------

  ghost function Count(m: HeaderMap): nat
    decreases m.Keys
  {
    if m == map[] then 0
    else
      var k :| k in m;
      |m[k]| + Count(m - {k})
  }

  lemma {:induction false} CountWithout(m: HeaderMap, k: Name)
    requires k in m
    ensures Count(m) == |m[k]| + Count(m - {k})
    decreases m.Keys
  {
    var j :| j in m && Count(m) == |m[j]| + Count(m - {j});
    if j != k {
      CountWithout(m - {j}, k);
      CountWithout(m - {k}, j);
      assert m - {j} - {k} == m - {k} - {j};
    }
  }

  lemma {:induction false} CountUnion(a: HeaderMap, b: HeaderMap)
    requires a.Keys !! b.Keys
    ensures Count(a + b) == Count(a) + Count(b)
    decreases a.Keys
  {
    if a == map[] {
      assert a + b == b;
    } else {
      var k :| k in a;
      CountUnion(a - {k}, b);
      CountWithout(a, k);
      CountWithout(a + b, k);
      assert (a + b) - {k} == (a - {k}) + b;
    }
  }

  lemma CountOverride(base: HeaderMap, m: HeaderMap)
    ensures Count(base + m) == Count(m) + Count(base - m.Keys)
  {
    assert base + m == (base - m.Keys) + m;
    CountUnion(base - m.Keys, m);
  }

  lemma FlatteningCount(m: HeaderMap, items: seq<Item>)
    requires Valid(m) && IsFlattening(items, m)
    ensures |items| == Count(m)
  {
    var order :| IsOrder(order, m) && items == Flatten(m, order);
    FlattenLength(m, order);
    assert Restrict(m, order) == m;
  }

  /** No value is lost or made up: after the merge there are the incoming values and the
      old values of the other names, and every name still has a value. */
  lemma ValuesAreConserved(base: HeaderMap, m: HeaderMap, items: seq<Item>)
    requires Valid(base) && Valid(m) && IsFlattening(items, m)
    ensures Merged(base, items).Some? && Valid(Merged(base, items).value)
    ensures Count(Merged(base, items).value) == |items| + Count(base - m.Keys)
  {
    MergeIsOverride(base, m, items);
    FlatteningCount(m, items);
    CountOverride(base, m);
  }

  lemma RestrictWithout(m: HeaderMap, names: seq<Name>, k: Name)
    requires k in m && k !in names
    ensures k in Restrict(m, names + [k]) && Restrict(m, names + [k])[k] == m[k]
    ensures Restrict(m, names + [k]) - {k} == Restrict(m, names)
  {
  }

  lemma {:induction false} FlattenLength(m: HeaderMap, order: seq<Name>)
    requires forall i :: 0 <= i < |order| ==> order[i] in m && m[order[i]] != []
    requires forall i, j :: 0 <= i < j < |order| ==> order[i] != order[j]
    ensures |Flatten(m, order)| == Count(Restrict(m, order))
  {
    if order == [] {
      assert Restrict(m, order) == map[];
    } else {
      var init, k := order[..|order| - 1], order[|order| - 1];
      FlattenLength(m, init);
      assert order == init + [k];
      RestrictWithout(m, init, k);
      CountWithout(Restrict(m, order), k);
    }
  }

  // ---------------------------------------------------------------------------
  // The builder
  // ---------------------------------------------------------------------------

  /** The iteration over a header map, in an order of its own choosing. */
  method IntoIter(m: HeaderMap) returns (items: seq<Item>)
    requires Valid(m)
    ensures IsFlattening(items, m)
  {
    items := [];
    ghost var order: seq<Name> := [];
    var rest := m.Keys;
    while rest != {}
      invariant rest <= m.Keys
      invariant forall i, j :: 0 <= i < j < |order| ==> order[i] != order[j]
      invariant forall k :: k in order <==> k in m && k !in rest
      invariant items == Flatten(m, order)
      decreases rest
    {
      var k :| k in rest;
      items := items + Group(k, m[k]);
      assert (order + [k])[..|order|] == order;
      order := order + [k];
      rest := rest - {k};
    }
    assert IsOrder(order, m);
  }

  class RequestBuilder {
    const url: string
    var headerMap: HeaderMap
    var content: Bytes

    /** `Client::post`: a request without headers and with an empty body. */
    constructor (url: string)
      ensures this.url == url && headerMap == map[] && content == []
    {
      this.url := url;
      headerMap := map[];
      content := [];
    }

    /** Merges the incoming headers into those of the request: the values of a name that
        comes in replace all its old values, in order; the other names keep theirs. */
    method Headers(incoming: HeaderMap)
      requires forall k :: k in headerMap ==> headerMap[k] != []
      requires forall k :: k in incoming ==> incoming[k] != []
      modifies this`headerMap
      ensures headerMap == old(headerMap) + incoming
      ensures forall k :: k in headerMap ==> headerMap[k] != []
    {
      var items := IntoIter(incoming);
      var prevEntry: Option<Name> := None;
      ghost var start := Merge(headerMap, None);
      MergeIsOverride(headerMap, incoming, items);
      for i := 0 to |items|
        invariant Turns(start, items[..i]) == Some(Merge(headerMap, prevEntry))
        invariant prevEntry.Some? ==> prevEntry.value in headerMap
      {
        OneMoreTurn(start, items, i);
        var value := items[i].value;
        match items[i].key {
          case Some(key) =>
            headerMap := headerMap[key := [value]];
            prevEntry := Some(key);
          case None =>
            match prevEntry {
              case Some(entry) =>
                headerMap := headerMap[entry := headerMap[entry] + [value]];
              case None =>
                assert false;
            }
        }
      }
      assert items[..|items|] == items;
    }

    /** Replaces the body and leaves the headers alone. */
    method Body(body: Bytes)
      modifies this`content
      ensures content == body
    {
      content := body;
    }
  }

  lemma OneMoreTurn(s: Merge, items: seq<Item>, i: nat)
    requires i < |items| && Turns(s, items).Some?
    ensures Turns(s, items[..i]).Some?
    ensures Turns(s, items[..i + 1]) == Turn(Turns(s, items[..i]).value, items[i])
    ensures Turns(s, items[..i + 1]).Some?
  {
    NoPanicBefore(s, items, i);
    NoPanicBefore(s, items, i + 1);
    assert items[..i + 1][..i] == items[..i];
  }

  lemma {:induction false} NoPanicBefore(s: Merge, items: seq<Item>, n: nat)
    requires n <= |items| && Turns(s, items).Some?
    ensures Turns(s, items[..n]).Some?
  {
    TurnsAppend(s, items[..n], items[n..]);
    assert items == items[..n] + items[n..];
  }
}
