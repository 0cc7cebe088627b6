/** The editable menu of the menu builder: the item list, its edits, the
    category view and the counts the statistics panel shows. */
module Menu {
  import Seqs

  /** A row of the editor. The five text fields hold whatever was typed. */
  datatype MenuItem = MenuItem(
    id: int,
    name: string,
    category: string,
    price: string,
    cost: string,
    description: string)

  /** The fields the editor writes through `updateMenuItem`. */
  datatype Field = Name | Category | Price | Cost | Description

  function Get(item: MenuItem, f: Field): string {
    match f
    case Name => item.name
    case Category => item.category
    case Price => item.price
    case Cost => item.cost
    case Description => item.description
  }

  /** `{ ...item, [field]: value }`. */
  function With(item: MenuItem, f: Field, v: string): (r: MenuItem)
    ensures r.id == item.id
    ensures Get(r, f) == v
    ensures forall g :: g != f ==> Get(r, g) == Get(item, g)
  {
    match f
    case Name => item.(name := v)
    case Category => item.(category := v)
    case Price => item.(price := v)
    case Cost => item.(cost := v)
    case Description => item.(description := v)
  }

  const DefaultCategory := "Main Course"

  /** The category selector's value that shows every item. */
  const AllCategories := "All"

  /** A new, empty row. */
  function Blank(id: int): MenuItem {
    MenuItem(id, "", DefaultCategory, "", "", "")
  }

  /** The editor opens with a single empty row numbered 1. */
  const Initial := [Blank(1)]

  predicate UniqueIds(items: seq<MenuItem>) {
    forall i, j :: 0 <= i < j < |items| ==> items[i].id != items[j].id
  }

  // ---- Adding a row ----

  /** `Math.max(...ids)` over a non-empty list. */
  function MaxId(items: seq<MenuItem>): (m: int)
    requires |items| > 0
    ensures forall i :: 0 <= i < |items| ==> items[i].id <= m
    ensures exists i :: 0 <= i < |items| && items[i].id == m
  {
    if |items| == 1 then items[0].id
    else
      var rest := MaxId(items[1..]);
      if items[0].id >= rest then items[0].id else rest
  }

  /** The id `addMenuItem` hands out: one past the largest, or 1 for an
      empty list. */
  function NewId(items: seq<MenuItem>): (id: int)
    ensures forall i :: 0 <= i < |items| ==> items[i].id < id
    ensures |items| == 0 ==> id == 1
    ensures |items| > 0 ==> exists i :: 0 <= i < |items| && items[i].id == id - 1
  {
    if |items| > 0 then MaxId(items) + 1 else 1
  }

  /** `addMenuItem`: one empty row in the default category, with a fresh id,
      after the existing rows, which are left as they were. */
  function AddItem(items: seq<MenuItem>): (r: seq<MenuItem>)
    ensures |r| == |items| + 1 && r[..|items|] == items
    ensures r[|items|].name == "" && r[|items|].category == DefaultCategory
    ensures r[|items|].price == "" && r[|items|].cost == "" && r[|items|].description == ""
    ensures forall i :: 0 <= i < |items| ==> items[i].id != r[|items|].id
  {
    items + [Blank(NewId(items))]
  }

  /** Adding a row keeps the ids distinct. */
  lemma AddKeepsUnique(items: seq<MenuItem>)
    requires UniqueIds(items)
    ensures UniqueIds(AddItem(items))
  {
    var r := AddItem(items);
    forall i, j | 0 <= i < j < |r|
      ensures r[i].id != r[j].id
    {
      assert r[i] == items[i];
      if j < |items| {
        assert r[j] == items[j];
      }
    }
  }

  // ---- Removing a row ----

  function OtherId(id: int): MenuItem -> bool {
    (item: MenuItem) => item.id != id
  }

  /** `removeMenuItem(id)`: the rows whose id differs, in their order. */
  function Remove(items: seq<MenuItem>, id: int): (r: seq<MenuItem>)
    ensures |r| <= |items|
    ensures forall x :: x in r <==> x in items && x.id != id
  {
    var r := Seqs.Filter(items, OtherId(id));
    forall x ensures x in r <==> x in items && x.id != id {
      Seqs.FilterMembers(items, OtherId(id), x);
    }
    r
  }

  /** With distinct ids, removing the id of row `k` cuts out exactly that
      row and closes the gap. */
  lemma RemoveCutsOut(items: seq<MenuItem>, k: nat)
    requires UniqueIds(items) && k < |items|
    ensures Remove(items, items[k].id) == items[..k] + items[k + 1..]
  {
    var p := OtherId(items[k].id);
    var before, after := items[..k], items[k + 1..];
    assert items == before + ([items[k]] + after);
    forall i | 0 <= i < |before| ensures p(before[i]) {
      assert before[i] == items[i];
    }
    forall i | 0 <= i < |after| ensures p(after[i]) {
      assert after[i] == items[k + 1 + i];
    }
    Seqs.FilterKeepsAll(before, p);
    Seqs.FilterKeepsAll(after, p);
    Seqs.FilterDropsAll([items[k]], p);
    Seqs.FilterAppend([items[k]], after, p);
    Seqs.FilterAppend(before, [items[k]] + after, p);
  }

  /** Removing an id no row carries changes nothing. */
  lemma RemoveAbsent(items: seq<MenuItem>, id: int)
    requires forall i :: 0 <= i < |items| ==> items[i].id != id
    ensures Remove(items, id) == items
  {
    Seqs.FilterKeepsAll(items, OtherId(id));
  }

  /** Removing a row keeps the ids distinct: the survivors are rows of the
      list, taken in their order. */
  lemma RemoveKeepsUnique(items: seq<MenuItem>, id: int)
    requires UniqueIds(items)
    ensures UniqueIds(Remove(items, id))
  {
    var distinct := (a: MenuItem, b: MenuItem) => a.id != b.id;
    Seqs.FilterKeepsPairwise(items, OtherId(id), distinct);
    var r := Remove(items, id);
    assert r == Seqs.Filter(items, OtherId(id));
    forall i, j | 0 <= i < j < |r| ensures r[i].id != r[j].id {
      assert distinct(r[i], r[j]);
    }
  }

  // ---- Editing a row ----

  function Edit(id: int, f: Field, v: string): MenuItem -> MenuItem {
    (item: MenuItem) => if item.id == id then With(item, f, v) else item
  }

  /** `updateMenuItem(id, field, value)`: every row with that id takes the
      value in that field; nothing else changes, and no row moves. */
  function Update(items: seq<MenuItem>, id: int, f: Field, v: string): (r: seq<MenuItem>)
    ensures |r| == |items|
    ensures forall i :: 0 <= i < |items| ==> r[i].id == items[i].id
    ensures forall i :: 0 <= i < |items| && items[i].id != id ==> r[i] == items[i]
    ensures forall i :: 0 <= i < |items| && items[i].id == id ==> Get(r[i], f) == v
    ensures forall i, g :: 0 <= i < |items| && g != f ==> Get(r[i], g) == Get(items[i], g)
  {
    Seqs.Map(items, Edit(id, f, v))
  }

  /** Editing keeps the ids distinct, and repeating an edit changes nothing. */
  lemma UpdateKeepsUnique(items: seq<MenuItem>, id: int, f: Field, v: string)
    ensures UniqueIds(Update(items, id, f, v)) <==> UniqueIds(items)
    ensures Update(Update(items, id, f, v), id, f, v) == Update(items, id, f, v)
  {
    var r := Update(items, id, f, v);
    var r2 := Update(r, id, f, v);
    forall i | 0 <= i < |r2|
      ensures r2[i] == r[i]
    {
      if r[i].id == id {
        assert Get(r2[i], f) == Get(r[i], f);
      }
    }
  }

  /** Editing a row and then removing it leaves the same list as removing it
      straight away. */
  lemma {:induction false} RemoveAfterUpdate(items: seq<MenuItem>, id: int, f: Field, v: string)
    ensures Remove(Update(items, id, f, v), id) == Remove(items, id)
  {
    if |items| > 0 {
      RemoveAfterUpdate(items[1..], id, f, v);
      assert Update(items, id, f, v)[1..] == Update(items[1..], id, f, v);
    }
  }

  // ---- The category view ----

  function InCategory(c: string): MenuItem -> bool {
    (item: MenuItem) => item.category == c
  }

  /** The rows of category `c`, in order. */
  function OfCategory(items: seq<MenuItem>, c: string): seq<MenuItem> {
    Seqs.Filter(items, InCategory(c))
  }

  /** `filteredItems`: the whole list under `'All'`, otherwise the rows of the
      selected category. */
  function Filtered(items: seq<MenuItem>, active: string): (r: seq<MenuItem>)
    ensures active == AllCategories ==> r == items
    ensures active != AllCategories ==> forall x :: x in r <==> x in items && x.category == active
    // the matching rows at their ascending positions: in list order, each once
    ensures active != AllCategories ==>
              r == Seqs.Pick(items, Seqs.IndicesWhere(items, InCategory(active)), Seqs.Id)
    ensures forall i :: 0 <= i < |r| ==> r[i] in items
  {
    if active == AllCategories then items
    else
      var r := OfCategory(items, active);
      Seqs.FilterIsPick(items, InCategory(active));
      forall x ensures x in r <==> x in items && x.category == active {
        Seqs.FilterMembers(items, InCategory(active), x);
      }
      r
  }

  // ---- The category distribution ----

  /** One key of the `categoryDistribution` object. */
  datatype Entry = Entry(category: string, count: nat)

  /** `acc[c] || 0`: the count under key `c`, 0 when absent. */
  function CountOf(acc: seq<Entry>, c: string): nat {
    if |acc| == 0 then 0
    else if acc[0].category == c then acc[0].count
    else CountOf(acc[1..], c)
  }

  predicate HasKey(acc: seq<Entry>, c: string) {
    exists i :: 0 <= i < |acc| && acc[i].category == c
  }

  predicate DistinctKeys(acc: seq<Entry>) {
    forall i, j :: 0 <= i < j < |acc| ==> acc[i].category != acc[j].category
  }

  predicate Positive(acc: seq<Entry>) {
    forall i :: 0 <= i < |acc| ==> acc[i].count >= 1
  }

  function Total(acc: seq<Entry>): nat {
    if |acc| == 0 then 0 else acc[0].count + Total(acc[1..])
  }

  lemma HasKeyCons(acc: seq<Entry>, c: string)
    requires |acc| > 0
    ensures HasKey(acc, c) <==> acc[0].category == c || HasKey(acc[1..], c)
  {
    if HasKey(acc, c) && acc[0].category != c {
      var i :| 0 <= i < |acc| && acc[i].category == c;
      assert acc[1..][i - 1] == acc[i];
    }
    if HasKey(acc[1..], c) {
      var i :| 0 <= i < |acc[1..]| && acc[1..][i].category == c;
      assert acc[i + 1] == acc[1..][i];
    }
  }

  /** `acc[c] = (acc[c] || 0) + 1`: an existing key is incremented in place;
      a new key is added last, with count 1. */
  function Bump(acc: seq<Entry>, c: string): (r: seq<Entry>)
    ensures CountOf(r, c) == CountOf(acc, c) + 1
    ensures forall d :: d != c ==> CountOf(r, d) == CountOf(acc, d)
    ensures Total(r) == Total(acc) + 1
    ensures |r| == if HasKey(acc, c) then |acc| else |acc| + 1
    ensures forall i :: 0 <= i < |acc| ==> r[i].category == acc[i].category && r[i].count >= acc[i].count
    ensures !HasKey(acc, c) ==> r[|acc|] == Entry(c, 1)
  {
    if |acc| == 0 then [Entry(c, 1)]
    else if acc[0].category == c then [acc[0].(count := acc[0].count + 1)] + acc[1..]
    else
      HasKeyCons(acc, c);
      [acc[0]] + Bump(acc[1..], c)
  }

  /** Bumping adds no key but `c`, and `c` is a key afterwards. */
  lemma BumpKeys(acc: seq<Entry>, c: string)
    ensures HasKey(Bump(acc, c), c)
    ensures forall d :: d != c ==> (HasKey(Bump(acc, c), d) <==> HasKey(acc, d))
  {
    var r := Bump(acc, c);
    if HasKey(acc, c) {
      var i :| 0 <= i < |acc| && acc[i].category == c;
      assert r[i].category == c;
    } else {
      assert r[|acc|].category == c;
    }
    forall d | d != c && HasKey(r, d) ensures HasKey(acc, d) {
      var i :| 0 <= i < |r| && r[i].category == d;
      assert acc[i].category == d;
    }
    forall d | HasKey(acc, d) ensures HasKey(r, d) {
      var i :| 0 <= i < |acc| && acc[i].category == d;
      assert r[i].category == d;
    }
  }

  /** Bumping keeps the keys distinct. */
  lemma BumpDistinct(acc: seq<Entry>, c: string)
    requires DistinctKeys(acc)
    ensures DistinctKeys(Bump(acc, c))
  {
    var r := Bump(acc, c);
    if HasKey(acc, c) {
      forall i, j | 0 <= i < j < |r| ensures r[i].category != r[j].category {
        assert r[i].category == acc[i].category && r[j].category == acc[j].category;
      }
    } else {
      forall i, j | 0 <= i < j < |r| ensures r[i].category != r[j].category {
        assert r[i].category == acc[i].category;
        if j == |acc| {
          assert r[j].category == c;
        } else {
          assert r[j].category == acc[j].category;
        }
      }
    }
  }

  /** Bumping keeps the counts positive. */
  lemma BumpPositive(acc: seq<Entry>, c: string)
    requires Positive(acc)
    ensures Positive(Bump(acc, c))
  {
    var r := Bump(acc, c);
    forall i | 0 <= i < |r| ensures r[i].count >= 1 {
      if i < |acc| {
        assert r[i].count >= acc[i].count;
      }
    }
  }

  /** The `reduce` building `categoryDistribution`, left to right. */
  function Tally(items: seq<MenuItem>): seq<Entry> {
    if |items| == 0 then []
    else Bump(Tally(items[..|items| - 1]), items[|items| - 1].category)
  }

  /** The number of rows in category `c`. */
  function CountIn(items: seq<MenuItem>, c: string): nat {
    |OfCategory(items, c)|
  }

  /** One key per category present, each at least 1, and all counts
      together the number of rows. */
  lemma {:induction false} TallyShape(items: seq<MenuItem>)
    ensures DistinctKeys(Tally(items)) && Positive(Tally(items))
    ensures Total(Tally(items)) == |items|
  {
    if |items| > 0 {
      var n := |items| - 1;
      var acc := Tally(items[..n]);
      TallyShape(items[..n]);
      BumpDistinct(acc, items[n].category);
      BumpPositive(acc, items[n].category);
    }
  }

  /** The count under each key is exactly the number of that category's
      rows. */
  lemma {:induction false} TallyCount(items: seq<MenuItem>, c: string)
    ensures CountOf(Tally(items), c) == CountIn(items, c)
  {
    if |items| > 0 {
      TallyCount(items[..|items| - 1], c);
      TallyStep(items, c);
      CountStep(items, c);
    }
  }

  lemma TallyStep(items: seq<MenuItem>, c: string)
    requires |items| > 0
    ensures var n := |items| - 1;
            CountOf(Tally(items), c) == CountOf(Tally(items[..n]), c) + (if items[n].category == c then 1 else 0)
  {
    var n := |items| - 1;
    assert Tally(items) == Bump(Tally(items[..n]), items[n].category);
  }

  lemma CountStep(items: seq<MenuItem>, c: string)
    requires |items| > 0
    ensures var n := |items| - 1;
            CountIn(items, c) == CountIn(items[..n], c) + (if items[n].category == c then 1 else 0)
  {
    var n := |items| - 1;
    assert items == items[..n] + [items[n]];
    Seqs.FilterAppend(items[..n], [items[n]], InCategory(c));
    assert [items[n]][1..] == [];
  }

  /** A key is present exactly when some row has that category. */
  lemma TallyKeys(items: seq<MenuItem>, c: string)
    ensures HasKey(Tally(items), c) <==> exists i :: 0 <= i < |items| && items[i].category == c
  {
    TallyShape(items);
    TallyCount(items, c);
    var acc := Tally(items);
    Seqs.FilterMembers(items, InCategory(c), Blank(0).(category := c));
    if HasKey(acc, c) {
      var i :| 0 <= i < |acc| && acc[i].category == c;
      CountOfAt(acc, i);
      var r := OfCategory(items, c);
      assert r[0] in items && r[0].category == c;
    } else {
      CountOfAbsent(acc, c);
      if exists i :: 0 <= i < |items| && items[i].category == c {
        var i :| 0 <= i < |items| && items[i].category == c;
        Seqs.FilterMembers(items, InCategory(c), items[i]);
      }
    }
  }

  lemma {:induction false} CountOfAt(acc: seq<Entry>, i: nat)
    requires DistinctKeys(acc) && i < |acc|
    ensures CountOf(acc, acc[i].category) == acc[i].count
  {
    if i > 0 {
      assert acc[1..][i - 1] == acc[i];
      CountOfAt(acc[1..], i - 1);
    }
  }

  lemma {:induction false} CountOfAbsent(acc: seq<Entry>, c: string)
    requires !HasKey(acc, c)
    ensures CountOf(acc, c) == 0
  {
    if |acc| > 0 {
      assert acc[0].category != c;
      assert !HasKey(acc[1..], c) by {
        forall i | 0 <= i < |acc[1..]| ensures acc[1..][i].category != c {
          assert acc[1..][i] == acc[i + 1];
        }
      }
      CountOfAbsent(acc[1..], c);
    }
  }

  /** The counting part of `stats`. */
  datatype Stats = Stats(totalItems: nat, categoryDistribution: seq<Entry>)

  /** The counting part of `updateStats`. */
  function UpdateStats(items: seq<MenuItem>): (s: Stats)
    ensures s.totalItems == |items|
    ensures Total(s.categoryDistribution) == s.totalItems
    ensures DistinctKeys(s.categoryDistribution) && Positive(s.categoryDistribution)
    ensures forall c :: CountOf(s.categoryDistribution, c) == CountIn(items, c)
  {
    TallyShape(items);
    forall c ensures CountOf(Tally(items), c) == CountIn(items, c) {
      TallyCount(items, c);
    }
    Stats(|items|, Tally(items))
  }

  /** Selecting a category other than `'All'` shows as many rows as the
      distribution counts for it. */
  lemma FilteredMatchesDistribution(items: seq<MenuItem>, c: string)
    requires c != AllCategories
    ensures |Filtered(items, c)| == CountOf(UpdateStats(items).categoryDistribution, c)
  {
  }

  /** The editor opens with one row, id 1, in the default category. */
  lemma InitialList()
    ensures |Initial| == 1 && Initial[0].id == 1 && UniqueIds(Initial)
    ensures Initial[0].category == DefaultCategory
    ensures UpdateStats(Initial) == Stats(1, [Entry(DefaultCategory, 1)])
  {
    assert Initial[..0] == [];
  }
}
