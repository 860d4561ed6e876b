/** The derived values both components compute on every render: the merge of
    the fetched items with the latest status map (`combinedData`), and the
    filtered, sorted list that is shown (`displayedData`), together with the
    sort-order toggle. The two components share this code line for line. */
module View {
  import opened Text

  /** One element of the fetched list, reduced to the fields the component
      reads. `id` is kept in the form it takes as a property key of the
      status map. */
  datatype Item = Item(id: string, name: string)

  /** An item with a `status` field attached, as `{ ...item, status }` builds it. */
  datatype ViewItem = ViewItem(item: Item, status: string)

  /** The parsed body of the status endpoint: item id to status string. */
  type StatusMap = map<string, string>

  /** The two values `sortOrder` takes. */
  datatype SortOrder = Asc | Desc

  const Unknown := "unknown"

  // ---------------------------------------------------------------------------
  // Merge
  // ---------------------------------------------------------------------------

  /** `statusData[id] || "unknown"`: a missing entry and an empty (falsy)
      status both fall back to "unknown". */
  function StatusOf(statuses: StatusMap, id: string): string
  {
    if id in statuses && statuses[id] != "" then statuses[id] else Unknown
  }

  /** `combinedData`: every item, in order, with its status attached. */
  function Merge(data: seq<Item>, statuses: StatusMap): (r: seq<ViewItem>)
    ensures |r| == |data|
    ensures forall i :: 0 <= i < |r| ==> r[i].item == data[i]
    ensures forall i :: 0 <= i < |r| && data[i].id in statuses && statuses[data[i].id] != "" ==>
              r[i].status == statuses[data[i].id]
    ensures forall i :: 0 <= i < |r| && (data[i].id !in statuses || statuses[data[i].id] == "") ==>
              r[i].status == Unknown
  {
    if data == [] then []
    else [ViewItem(data[0], StatusOf(statuses, data[0].id))] + Merge(data[1..], statuses)
  }

  /** Merging is done item by item: merging a concatenation is concatenating
      the merges, so nothing moves, appears or disappears. */
  lemma {:induction false} MergeAppend(a: seq<Item>, b: seq<Item>, statuses: StatusMap)
    ensures Merge(a + b, statuses) == Merge(a, statuses) + Merge(b, statuses)
    decreases |a|
  {
    if a == [] {
      assert a + b == b;
    } else {
      assert (a + b)[0] == a[0] && (a + b)[1..] == a[1..] + b;
      MergeAppend(a[1..], b, statuses);
    }
  }

  /** With an empty status map every merged item reads "unknown". */
  lemma MergeWithoutStatuses(data: seq<Item>)
    ensures forall v :: v in Merge(data, map[]) ==> v.status == Unknown
  {
  }

  // ---------------------------------------------------------------------------
  // Filter
  // ---------------------------------------------------------------------------

  /** `name.toLowerCase().includes(filterText.toLowerCase())`. */
  predicate NameMatches(name: string, filterText: string)
  {
    Includes(Lower(name), Lower(filterText))
  }

  /** Case does not matter on either side of the match: changing the case of
      any one letter of the name or of the filter text keeps the verdict. */
  lemma MatchIgnoresCase(name: string, filterText: string, i: nat)
    ensures i < |name| ==>
              NameMatches(name[..i] + [UpperChar(name[i])] + name[i + 1..], filterText) == NameMatches(name, filterText)
    ensures i < |filterText| ==>
              NameMatches(name, filterText[..i] + [UpperChar(filterText[i])] + filterText[i + 1..]) == NameMatches(name, filterText)
    ensures NameMatches(Lower(name), filterText) == NameMatches(name, filterText)
    ensures NameMatches(name, Lower(filterText)) == NameMatches(name, filterText)
  {
    if i < |name| {
      LowerOfUpperAt(name, i);
    }
    if i < |filterText| {
      LowerOfUpperAt(filterText, i);
    }
    assert Lower(Lower(name)) == Lower(name);
    assert Lower(Lower(filterText)) == Lower(filterText);
  }

  predicate Matches(v: ViewItem, filterText: string)
  {
    NameMatches(v.item.name, filterText)
  }

  /** `combinedData.filter(...)`: keeps exactly the matching items, each as
      often as it occurs, in their original order. */
  function Filter(vs: seq<ViewItem>, filterText: string): (r: seq<ViewItem>)
    ensures |r| <= |vs|
    ensures forall v :: v in r <==> v in vs && Matches(v, filterText)
    ensures forall v :: multiset(r)[v] == if Matches(v, filterText) then multiset(vs)[v] else 0
  {
    if vs == [] then []
    else
      assert vs == [vs[0]] + vs[1..];
      if Matches(vs[0], filterText) then [vs[0]] + Filter(vs[1..], filterText)
      else Filter(vs[1..], filterText)
  }

  /** Filtering a concatenation filters each part in place: the kept items
      keep their relative order. */
  lemma {:induction false} FilterAppend(a: seq<ViewItem>, b: seq<ViewItem>, filterText: string)
    ensures Filter(a + b, filterText) == Filter(a, filterText) + Filter(b, filterText)
    decreases |a|
  {
    if a == [] {
      assert a + b == b;
    } else {
      assert (a + b)[0] == a[0] && (a + b)[1..] == a[1..] + b;
      FilterAppend(a[1..], b, filterText);
    }
  }

  /** A list whose items all match passes the filter unchanged. */
  lemma {:induction false} FilterKeepsMatching(vs: seq<ViewItem>, filterText: string)
    requires forall v :: v in vs ==> Matches(v, filterText)
    ensures Filter(vs, filterText) == vs
    decreases |vs|
  {
    if vs != [] {
      assert vs[0] in vs;
      FilterKeepsMatching(vs[1..], filterText);
      assert vs == [vs[0]] + vs[1..];
    }
  }

  /** The empty filter text keeps every item, in merge order. */
  lemma EmptyFilterKeepsAll(vs: seq<ViewItem>)
    ensures Filter(vs, "") == vs
  {
    forall v | v in vs
      ensures Matches(v, "")
    {
      assert OccursAt("", Lower(v.item.name), 0);
    }
    FilterKeepsMatching(vs, "");
  }

  // ---------------------------------------------------------------------------
  // Sort
  // ---------------------------------------------------------------------------

  /** The comparator passed to `sort`: `a.name.localeCompare(b.name)` for
      "asc", the operands swapped for "desc". */
  function Cmp(order: SortOrder, a: ViewItem, b: ViewItem): int
  {
    match order
    case Asc => Compare(a.item.name, b.item.name)
    case Desc => Compare(b.item.name, a.item.name)
  }

  /** `a` may come before `b`: the comparator does not put `b` first. */
  predicate InOrder(order: SortOrder, a: ViewItem, b: ViewItem)
  {
    Cmp(order, a, b) <= 0
  }

  lemma InOrderTotal(order: SortOrder, a: ViewItem, b: ViewItem)
    ensures InOrder(order, a, b) || InOrder(order, b, a)
    ensures InOrder(order, a, b) && InOrder(order, b, a) ==> a.item.name == b.item.name
  {
    CompareFlip(a.item.name, b.item.name);
  }

  lemma InOrderTransitive(order: SortOrder, a: ViewItem, b: ViewItem, c: ViewItem)
    requires InOrder(order, a, b) && InOrder(order, b, c)
    ensures InOrder(order, a, c)
  {
    match order
    case Asc => CompareTransitive(a.item.name, b.item.name, c.item.name);
    case Desc => CompareTransitive(c.item.name, b.item.name, a.item.name);
  }

  ghost predicate Sorted(s: seq<ViewItem>, order: SortOrder)
  {
    forall i, j :: 0 <= i < j < |s| ==> InOrder(order, s[i], s[j])
  }

  /** A head that may precede every element of a sorted list extends it. */
  lemma PrependSorted(h: ViewItem, t: seq<ViewItem>, order: SortOrder)
    requires Sorted(t, order)
    requires forall y :: y in t ==> InOrder(order, h, y)
    ensures Sorted([h] + t, order)
  {
    forall i, j | 0 <= i < j < |[h] + t|
      ensures InOrder(order, ([h] + t)[i], ([h] + t)[j])
    {
      if i == 0 {
        assert ([h] + t)[j] == t[j - 1];
        assert t[j - 1] in t;
      }
    }
  }

  /** `x` may go first when it may precede the head of a sorted list. */
  lemma InsertAtFront(x: ViewItem, s: seq<ViewItem>, order: SortOrder)
    requires s != [] && InOrder(order, x, s[0])
    ensures Sorted(s, order) ==> Sorted([x] + s, order)
  {
    if Sorted(s, order) {
      forall y | y in s
        ensures InOrder(order, x, y)
      {
        var k :| 0 <= k < |s| && s[k] == y;
        if k > 0 {
          InOrderTransitive(order, x, s[0], y);
        }
      }
      PrependSorted(x, s, order);
    }
  }

  /** When `x` goes behind the head, the head still precedes everything. */
  lemma InsertBehindHead(x: ViewItem, s: seq<ViewItem>, t: seq<ViewItem>, order: SortOrder)
    requires s != [] && !InOrder(order, x, s[0])
    requires multiset(t) == multiset(s[1..]) + multiset{x}
    requires Sorted(s[1..], order) ==> Sorted(t, order)
    ensures Sorted(s, order) ==> Sorted([s[0]] + t, order)
  {
    if Sorted(s, order) {
      assert Sorted(s[1..], order);
      InOrderTotal(order, x, s[0]);
      forall y | y in t
        ensures InOrder(order, s[0], y)
      {
        assert y in multiset(t);
        if y != x {
          assert y in s[1..];
          var k :| 0 <= k < |s[1..]| && s[1..][k] == y;
          assert s[k + 1] == y;
        }
      }
      PrependSorted(s[0], t, order);
    }
  }

  /** Puts `x` in front of the first element it may precede, so that it
      stays ahead of the elements whose names equal its own. */
  function Insert(x: ViewItem, s: seq<ViewItem>, order: SortOrder): (r: seq<ViewItem>)
    ensures multiset(r) == multiset(s) + multiset{x}
    ensures Sorted(s, order) ==> Sorted(r, order)
  {
    if s == [] then [x]
    else
      assert s == [s[0]] + s[1..];
      if InOrder(order, x, s[0]) then
        InsertAtFront(x, s, order);
        [x] + s
      else
        var t := Insert(x, s[1..], order);
        InsertBehindHead(x, s, t, order);
        [s[0]] + t
  }

  /** `sort` with the comparator: a stable insertion sort. */
  function Sort(s: seq<ViewItem>, order: SortOrder): (r: seq<ViewItem>)
    ensures |r| == |s|
    ensures multiset(r) == multiset(s)
    ensures Sorted(r, order)
  {
    if s == [] then []
    else
      assert s == [s[0]] + s[1..];
      var r := Insert(s[0], Sort(s[1..], order), order);
      assert |r| == |multiset(r)|;
      r
  }

  /** The items of `s` named `name`, in the order they occur. */
  function WithName(s: seq<ViewItem>, name: string): seq<ViewItem>
  {
    if s == [] then [] else Named(s[0], name) + WithName(s[1..], name)
  }

  /** `[v]` when `v` carries `name`, otherwise nothing. */
  function Named(v: ViewItem, name: string): seq<ViewItem>
  {
    if v.item.name == name then [v] else []
  }

  lemma WithNameCons(h: ViewItem, t: seq<ViewItem>, name: string)
    ensures WithName([h] + t, name) == Named(h, name) + WithName(t, name)
  {
    assert ([h] + t)[0] == h && ([h] + t)[1..] == t;
  }

  lemma {:induction false} InsertStable(x: ViewItem, s: seq<ViewItem>, order: SortOrder, name: string)
    ensures WithName(Insert(x, s, order), name) == Named(x, name) + WithName(s, name)
    decreases |s|
  {
    if s == [] {
      WithNameCons(x, [], name);
    } else if InOrder(order, x, s[0]) {
      WithNameCons(x, s, name);
    } else {
      var t := Insert(x, s[1..], order);
      assert Insert(x, s, order) == [s[0]] + t;
      InsertStable(x, s[1..], order, name);
      WithNameCons(s[0], t, name);
      assert WithName(s, name) == Named(s[0], name) + WithName(s[1..], name);
      // Two items of the same name compare equal, so `x` would have stopped at `s[0]`.
      assert Named(s[0], name) == [] || Named(x, name) == [];
    }
  }

  /** The sort is stable: for every name, the items carrying it come out in
      the order they went in. */
  lemma {:induction false} SortStable(s: seq<ViewItem>, order: SortOrder, name: string)
    ensures WithName(Sort(s, order), name) == WithName(s, name)
    decreases |s|
  {
    if s != [] {
      SortStable(s[1..], order, name);
      InsertStable(s[0], Sort(s[1..], order), order, name);
    }
  }

  /** Sorting a list that is already in order leaves it as it is. */
  lemma {:induction false} SortOfSorted(s: seq<ViewItem>, order: SortOrder)
    requires Sorted(s, order)
    ensures Sort(s, order) == s
    decreases |s|
  {
    if s != [] {
      assert Sorted(s[1..], order);
      SortOfSorted(s[1..], order);
      if |s| > 1 {
        assert InOrder(order, s[0], s[1]);
        assert s[1..][0] == s[1];
      }
      assert s == [s[0]] + s[1..];
    }
  }

  // ---------------------------------------------------------------------------
  // Filter + sort
  // ---------------------------------------------------------------------------

  /** `displayedData`: exactly the matching items, each as often as it was
      merged, in the selected order. */
  function Derive(vs: seq<ViewItem>, filterText: string, order: SortOrder): (r: seq<ViewItem>)
    ensures forall v :: multiset(r)[v] == if Matches(v, filterText) then multiset(vs)[v] else 0
    ensures forall v :: v in r <==> v in vs && Matches(v, filterText)
    ensures Sorted(r, order)
  {
    var r := Sort(Filter(vs, filterText), order);
    assert forall v :: v in r <==> v in multiset(r);
    r
  }

  /** Whether the filter keeps an item depends on its name alone. */
  lemma {:induction false} FilterWithName(vs: seq<ViewItem>, filterText: string, name: string)
    ensures WithName(Filter(vs, filterText), name)
         == if NameMatches(name, filterText) then WithName(vs, name) else []
    decreases |vs|
  {
    if vs != [] {
      FilterWithName(vs[1..], filterText, name);
      var rest := Filter(vs[1..], filterText);
      if Matches(vs[0], filterText) {
        assert ([vs[0]] + rest)[1..] == rest;
      }
    }
  }

  /** Items with equal names are shown in merge order, whichever direction
      the list is sorted in; names the filter rejects are not shown at all. */
  lemma DeriveStable(vs: seq<ViewItem>, filterText: string, order: SortOrder, name: string)
    ensures WithName(Derive(vs, filterText, order), name)
         == if NameMatches(name, filterText) then WithName(vs, name) else []
  {
    SortStable(Filter(vs, filterText), order, name);
    FilterWithName(vs, filterText, name);
  }

  /** Filtering and sorting the displayed list again changes nothing. */
  lemma DeriveIdempotent(vs: seq<ViewItem>, filterText: string, order: SortOrder)
    ensures Derive(Derive(vs, filterText, order), filterText, order) == Derive(vs, filterText, order)
  {
    var d := Derive(vs, filterText, order);
    FilterKeepsMatching(d, filterText);
    SortOfSorted(d, order);
  }

  /** With no filter text the whole merged list is shown, sorted. */
  lemma DeriveEmptyFilter(vs: seq<ViewItem>, order: SortOrder)
    ensures Derive(vs, "", order) == Sort(vs, order)
  {
    EmptyFilterKeepsAll(vs);
  }

  // ---------------------------------------------------------------------------
  // Sort toggle
  // ---------------------------------------------------------------------------

  /** `toggleSort`: "asc" becomes "desc" and anything else becomes "asc". */
  function ToggleSort(order: SortOrder): (r: SortOrder)
    ensures r != order
  {
    if order == Asc then Desc else Asc
  }

  lemma ToggleTwice(order: SortOrder)
    ensures ToggleSort(ToggleSort(order)) == order
  {
  }

  /** The toggled order puts every pair the other way round. */
  lemma ToggleFlipsInOrder(order: SortOrder, a: ViewItem, b: ViewItem)
    ensures InOrder(ToggleSort(order), a, b) == InOrder(order, b, a)
  {
  }

  function Reverse<T>(s: seq<T>): seq<T>
  {
    if s == [] then [] else Reverse(s[1..]) + [s[0]]
  }

  lemma {:induction false} ReverseFacts<T>(s: seq<T>)
    ensures |Reverse(s)| == |s|
    ensures forall i :: 0 <= i < |s| ==> Reverse(s)[i] == s[|s| - 1 - i]
    ensures multiset(Reverse(s)) == multiset(s)
    decreases |s|
  {
    if s != [] {
      ReverseFacts(s[1..]);
      assert s == [s[0]] + s[1..];
    }
  }

  /** No two shown items share a name, and none is listed twice. */
  ghost predicate DistinctNames(s: seq<ViewItem>)
  {
    && (forall v :: multiset(s)[v] <= 1)
    && (forall v, w :: v in s && w in s && v.item.name == w.item.name ==> v == w)
  }

  /** In a sorted list the head may precede every element of the list. */
  lemma HeadPrecedesAll(s: seq<ViewItem>, order: SortOrder, y: ViewItem)
    requires Sorted(s, order) && s != [] && y in s
    ensures InOrder(order, s[0], y)
  {
    var k :| 0 <= k < |s| && s[k] == y;
    if k == 0 {
      CompareFlip(y.item.name, y.item.name);
    }
  }

  /** Two sorted arrangements of one multiset with distinct names start alike. */
  lemma SortedSameHead(a: seq<ViewItem>, b: seq<ViewItem>, order: SortOrder)
    requires Sorted(a, order) && Sorted(b, order)
    requires multiset(a) == multiset(b) && a != [] && b != []
    requires DistinctNames(a)
    ensures a[0] == b[0]
  {
    assert a[0] in multiset(b) && b[0] in multiset(a);
    HeadPrecedesAll(b, order, a[0]);
    HeadPrecedesAll(a, order, b[0]);
    InOrderTotal(order, a[0], b[0]);
  }

  lemma DistinctNamesTail(a: seq<ViewItem>)
    requires a != [] && DistinctNames(a)
    ensures DistinctNames(a[1..])
  {
    assert a == [a[0]] + a[1..];
    forall v
      ensures multiset(a[1..])[v] <= 1
    {
      assert multiset(a)[v] == multiset{a[0]}[v] + multiset(a[1..])[v];
    }
  }

  /** With distinct names there is only one sorted arrangement of a multiset. */
  lemma {:induction false} SortedUnique(a: seq<ViewItem>, b: seq<ViewItem>, order: SortOrder)
    requires Sorted(a, order) && Sorted(b, order)
    requires multiset(a) == multiset(b)
    requires DistinctNames(a)
    ensures a == b
    decreases |a|
  {
    assert |a| == |multiset(a)| == |multiset(b)| == |b|;
    if a != [] {
      SortedSameHead(a, b, order);
      assert a == [a[0]] + a[1..] && b == [b[0]] + b[1..];
      assert multiset(a[1..]) == multiset(a) - multiset{a[0]};
      assert multiset(b[1..]) == multiset(b) - multiset{b[0]};
      assert Sorted(a[1..], order) && Sorted(b[1..], order);
      DistinctNamesTail(a);
      SortedUnique(a[1..], b[1..], order);
    }
  }

  /** Toggling the sort order reverses the displayed list when no two items
      share a name. */
  lemma ToggleReverses(vs: seq<ViewItem>, filterText: string, order: SortOrder)
    requires DistinctNames(vs)
    ensures Derive(vs, filterText, ToggleSort(order)) == Reverse(Derive(vs, filterText, order))
  {
    var d := Derive(vs, filterText, order);
    var e := Derive(vs, filterText, ToggleSort(order));
    var rd := Reverse(d);
    ReverseFacts(d);
    forall i, j | 0 <= i < j < |rd|
      ensures InOrder(ToggleSort(order), rd[i], rd[j])
    {
      ToggleFlipsInOrder(order, rd[i], rd[j]);
    }
    assert multiset(e) == multiset(d) by {
      forall v ensures multiset(e)[v] == multiset(d)[v] { }
    }
    assert DistinctNames(e) by {
      forall v ensures multiset(e)[v] <= 1 {
        assert multiset(vs)[v] <= 1;
      }
    }
    SortedUnique(e, rd, ToggleSort(order));
  }

  /** The worked example: Bob (id 1, online) and Alice (id 2, no status). */
  lemma ExampleScenario()
    ensures Merge([Item("1", "Bob"), Item("2", "Alice")], map["1" := "online"])
         == [ViewItem(Item("1", "Bob"), "online"), ViewItem(Item("2", "Alice"), Unknown)]
    ensures Derive([ViewItem(Item("1", "Bob"), "online"), ViewItem(Item("2", "Alice"), Unknown)], "", Asc)
         == [ViewItem(Item("2", "Alice"), Unknown), ViewItem(Item("1", "Bob"), "online")]
  {
    var bob := ViewItem(Item("1", "Bob"), "online");
    var alice := ViewItem(Item("2", "Alice"), Unknown);
    EmptyFilterKeepsAll([bob, alice]);
    assert Compare("Alice", "Bob") == -1;
    assert [bob, alice][1..] == [alice];
    assert Sort([alice], Asc) == [alice];
  }
}
