/**
  The WhatsApp menu, shared/waMenu.ts: the validator of ids, orders and keys, the ordering of the
  use cases with its one-slot moves, and the renderer.
 */
module WaMenu {
  import opened Common
  import opened Digits
  import opened Texts

  /** One of WA_USE_CASE_IDS in the source; all that is used of it is that it is not empty. */
  type Id = s: string | s != "" witness "shop"

  datatype UseCase = UseCase(id: Id, title: string, enabled: bool, order: int)

  datatype CustomItem = CustomItem(key: string, title: string, response: string)

  datatype Menu = Menu(useCases: seq<UseCase>, customItems: seq<CustomItem>)

  // ---------------------------------------------------------------- the order

  predicate Sorted(s: seq<UseCase>) {
    forall i, j :: 0 <= i < j < |s| ==> s[i].order <= s[j].order
  }

  /** The entries of one order value, in their order of appearance. */
  function OfOrder(s: seq<UseCase>, o: int): seq<UseCase> {
    if s == [] then [] else (if s[0].order == o then [s[0]] else []) + OfOrder(s[1..], o)
  }

  /** r is s sorted by order, entries of equal order keeping their order of appearance. */
  ghost predicate IsStableSort(s: seq<UseCase>, r: seq<UseCase>) {
    Sorted(r) && forall o :: OfOrder(r, o) == OfOrder(s, o)
  }

  function Insert(u: UseCase, s: seq<UseCase>): seq<UseCase> {
    if s == [] || u.order <= s[0].order then [u] + s else [s[0]] + Insert(u, s[1..])
  }

  function SortUseCasesByOrder(s: seq<UseCase>): seq<UseCase> {
    if s == [] then [] else Insert(s[0], SortUseCasesByOrder(s[1..]))
  }

  lemma {:induction false} InsertKeeps(u: UseCase, s: seq<UseCase>)
    requires Sorted(s)
    ensures Sorted(Insert(u, s)) && |Insert(u, s)| == |s| + 1
    ensures Insert(u, s)[0] == u || (s != [] && Insert(u, s)[0] == s[0])
  {
    if s != [] && u.order > s[0].order {
      InsertKeeps(u, s[1..]);
      var t := Insert(u, s[1..]);
      assert s[0].order <= t[0].order;
    }
  }

  lemma OfOrderCons(u: UseCase, s: seq<UseCase>, o: int)
    ensures OfOrder([u] + s, o) == (if u.order == o then [u] else []) + OfOrder(s, o)
  {
    assert ([u] + s)[1..] == s;
  }

  lemma {:induction false} InsertIsStable(u: UseCase, s: seq<UseCase>, o: int)
    ensures OfOrder(Insert(u, s), o) == (if u.order == o then [u] else []) + OfOrder(s, o)
  {
    if s == [] || u.order <= s[0].order {
      OfOrderCons(u, s, o);
    } else {
      InsertIsStable(u, s[1..], o);
      OfOrderCons(s[0], Insert(u, s[1..]), o);
    }
  }

  lemma {:induction false} SortIsStable(s: seq<UseCase>)
    ensures IsStableSort(s, SortUseCasesByOrder(s)) && |SortUseCasesByOrder(s)| == |s|
  {
    if s != [] {
      var t := SortUseCasesByOrder(s[1..]);
      SortIsStable(s[1..]);
      InsertKeeps(s[0], t);
      forall o ensures OfOrder(Insert(s[0], t), o) == OfOrder(s, o) {
        InsertIsStable(s[0], t, o);
      }
    }
  }

  ghost predicate SameGroups(a: seq<UseCase>, b: seq<UseCase>) {
    forall o :: OfOrder(a, o) == OfOrder(b, o)
  }

  predicate HasOrder(s: seq<UseCase>, o: int) {
    exists i :: 0 <= i < |s| && s[i].order == o
  }

  lemma {:induction false} GroupIsPresent(s: seq<UseCase>, o: int)
    ensures OfOrder(s, o) != [] <==> HasOrder(s, o)
  {
    if s != [] {
      GroupIsPresent(s[1..], o);
      if HasOrder(s[1..], o) {
        var i :| 0 <= i < |s[1..]| && s[1..][i].order == o;
        assert s[i + 1].order == o;
      }
      if HasOrder(s, o) && s[0].order != o {
        var i :| 0 <= i < |s| && s[i].order == o;
        assert s[1..][i - 1].order == o;
      }
    }
  }

  lemma FirstIsLeast(a: seq<UseCase>, b: seq<UseCase>, i: nat)
    requires Sorted(a) && a != [] && SameGroups(a, b) && i < |b|
    ensures a[0].order <= b[i].order
  {
    var o := b[i].order;
    GroupIsPresent(b, o);
    assert OfOrder(a, o) == OfOrder(b, o);
    GroupIsPresent(a, o);
    var j :| 0 <= j < |a| && a[j].order == o;
    assert j > 0 ==> a[0].order <= a[j].order;
  }

  lemma NoGroups(a: seq<UseCase>, b: seq<UseCase>)
    requires SameGroups(a, b)
    ensures a == [] <==> b == []
  {
    if a != [] {
      GroupIsPresent(a, a[0].order);
      GroupIsPresent(b, a[0].order);
      assert OfOrder(a, a[0].order) == OfOrder(b, a[0].order);
    }
    if b != [] {
      GroupIsPresent(a, b[0].order);
      GroupIsPresent(b, b[0].order);
      assert OfOrder(a, b[0].order) == OfOrder(b, b[0].order);
    }
  }

  lemma GroupOfTail(s: seq<UseCase>, o: int)
    requires s != []
    ensures OfOrder(s[1..], o) == if s[0].order == o then OfOrder(s, o)[1..] else OfOrder(s, o)
  {
  }

  lemma {:induction false} SortedWithSameGroups(a: seq<UseCase>, b: seq<UseCase>)
    requires Sorted(a) && Sorted(b) && SameGroups(a, b)
    ensures a == b
  {
    NoGroups(a, b);
    if a != [] {
      FirstIsLeast(a, b, 0);
      FirstIsLeast(b, a, 0);
      assert OfOrder(a, a[0].order) == OfOrder(b, a[0].order);
      assert OfOrder(a, a[0].order)[0] == a[0] && OfOrder(b, b[0].order)[0] == b[0];
      forall o ensures OfOrder(a[1..], o) == OfOrder(b[1..], o) {
        GroupOfTail(a, o);
        GroupOfTail(b, o);
        assert OfOrder(a, o) == OfOrder(b, o);
      }
      SortedWithSameGroups(a[1..], b[1..]);
      assert a == [a[0]] + a[1..] && b == [b[0]] + b[1..];
    }
  }

  /** There is only one stable sort, so any implementation of Array.prototype.sort gives this one. */
  lemma StableSortIsUnique(s: seq<UseCase>, r: seq<UseCase>)
    ensures IsStableSort(s, r) <==> r == SortUseCasesByOrder(s)
  {
    SortIsStable(s);
    if IsStableSort(s, r) {
      var t := SortUseCasesByOrder(s);
      forall o ensures OfOrder(r, o) == OfOrder(t, o) {
        assert OfOrder(r, o) == OfOrder(s, o) == OfOrder(t, o);
      }
      SortedWithSameGroups(r, t);
    }
  }

  lemma SortOfSorted(s: seq<UseCase>)
    requires Sorted(s)
    ensures SortUseCasesByOrder(s) == s
  {
    StableSortIsUnique(s, s);
  }

  /** The entries with the orders 1, 2, ... in the sequence they stand in. */
  function Numbered(s: seq<UseCase>): (r: seq<UseCase>)
    ensures |r| == |s| && Sorted(r)
    ensures forall i :: 0 <= i < |s| ==> r[i] == s[i].(order := i + 1)
  {
    seq(|s|, i requires 0 <= i < |s| => s[i].(order := i + 1))
  }

  function RenumberUseCases(s: seq<UseCase>): seq<UseCase> {
    Numbered(SortUseCasesByOrder(s))
  }

  /** Renumbering keeps the display order and renumbering twice is renumbering once. */
  lemma RenumberKeepsDisplay(s: seq<UseCase>)
    ensures SortUseCasesByOrder(RenumberUseCases(s)) == RenumberUseCases(s)
    ensures RenumberUseCases(RenumberUseCases(s)) == RenumberUseCases(s)
  {
    var r := RenumberUseCases(s);
    SortOfSorted(r);
    assert Numbered(r) == r;
  }

  // ---------------------------------------------------------------- the renderer

  datatype LiveData =
    LiveData(shopItemCount: Option<nat>, topProducts: Option<seq<string>>, openOrderCount: Option<nat>)

  /** A line of the menu: only the entries carry a number. */
  datatype Line = Greeting(text: string) | Blank | Entry(n: nat, text: string) | Product(text: string)

  function Show(line: Line): string {
    match line
    case Greeting(text) => text
    case Blank => ""
    case Entry(n, text) => NatToString(n) + ". " + text
    case Product(text) => "   \U{2022} " + text
  }

  function ShowAll(lines: seq<Line>): (r: seq<string>)
    ensures |r| == |lines| && forall i :: 0 <= i < |lines| ==> r[i] == Show(lines[i])
  {
    seq(|lines|, i requires 0 <= i < |lines| => Show(lines[i]))
  }

  function Enabled(s: seq<UseCase>): seq<UseCase> {
    if s == [] then [] else (if s[0].enabled then [s[0]] else []) + Enabled(s[1..])
  }

  /** names.slice(0, 5) */
  function FirstFive(names: seq<string>): seq<string> {
    if |names| <= 5 then names else names[..5]
  }

  function TitleOf(u: UseCase, data: LiveData): string {
    if u.id == "shop" && data.shopItemCount.Some? then
      u.title + " (" + NatToString(data.shopItemCount.value) + " items)"
    else if u.id == "track" && data.openOrderCount.Some? then
      u.title + " (" + NatToString(data.openOrderCount.value) + " open)"
    else u.title
  }

  function Products(names: seq<string>): (r: seq<Line>)
    ensures |r| == |names| && forall i :: 0 <= i < |names| ==> r[i] == Product(names[i])
  {
    seq(|names|, i requires 0 <= i < |names| => Product(names[i]))
  }

  /** What the menu says about a use case: its title and the names listed under it. */
  datatype Row = Row(title: string, products: seq<string>)

  function RowOf(u: UseCase, data: LiveData): Row {
    Row(TitleOf(u, data),
        if u.id == "shop" && data.topProducts.Some? then FirstFive(data.topProducts.value) else [])
  }

  function Rows(s: seq<UseCase>, data: LiveData): (r: seq<Row>)
    ensures |r| == |s| && forall i :: 0 <= i < |s| ==> r[i] == RowOf(s[i], data)
  {
    seq(|s|, i requires 0 <= i < |s| => RowOf(s[i], data))
  }

  function LinesOf(row: Row, n: nat): seq<Line> {
    [Entry(n, row.title)] + Products(row.products)
  }

  /** The lines of the rows, numbered from 1. */
  function EntryLines(rows: seq<Row>): seq<Line> {
    if rows == [] then [] else EntryLines(rows[..|rows| - 1]) + LinesOf(rows[|rows| - 1], |rows|)
  }

  /** The custom items, numbered from n + 1. */
  function CustomLines(items: seq<CustomItem>, n: nat): seq<Line> {
    if items == [] then []
    else CustomLines(items[..|items| - 1], n) + [Entry(n + |items|, items[|items| - 1].title)]
  }

  function Heading(greeting: string): seq<Line> {
    [Greeting(greeting), Blank]
  }

  function MenuOf(greeting: string, rows: seq<Row>, items: seq<CustomItem>): seq<Line> {
    Heading(greeting) + EntryLines(rows) + CustomLines(items, |rows|)
  }

  function MenuLines(menu: Menu, greeting: string, data: LiveData): seq<Line> {
    MenuOf(greeting, Rows(SortUseCasesByOrder(Enabled(menu.useCases)), data), menu.customItems)
  }

  lemma ShowAllConcat(a: seq<Line>, b: seq<Line>)
    ensures ShowAll(a + b) == ShowAll(a) + ShowAll(b)
  {
  }

  lemma EntryLinesStep(top: seq<Line>, rows: seq<Row>, i: nat)
    requires i < |rows|
    ensures ShowAll(top + EntryLines(rows[..i + 1]))
         == ShowAll(top + EntryLines(rows[..i])) + ShowAll(LinesOf(rows[i], i + 1))
  {
    var more := LinesOf(rows[i], i + 1);
    assert rows[..i + 1][..i] == rows[..i];
    assert top + (EntryLines(rows[..i]) + more) == (top + EntryLines(rows[..i])) + more;
    ShowAllConcat(top + EntryLines(rows[..i]), more);
  }

  lemma CustomLinesStep(items: seq<CustomItem>, n: nat, i: nat)
    requires i < |items|
    ensures ShowAll(CustomLines(items[..i + 1], n))
         == ShowAll(CustomLines(items[..i], n)) + [Show(Entry(n + i + 1, items[i].title))]
  {
    assert items[..i + 1][..i] == items[..i];
    ShowAllConcat(CustomLines(items[..i], n), [Entry(n + i + 1, items[i].title)]);
  }

  /** greeting is menu.greeting with the business name put in. */
  method RenderWaMenu(menu: Menu, greeting: string, data: LiveData) returns (text: string)
    ensures text == Join('\n', ShowAll(MenuLines(menu, greeting, data)))
  {
    ghost var top := Heading(greeting);
    var lines: seq<string> := [];
    lines := lines + [greeting];
    lines := lines + [""];
    assert lines == ShowAll(top + []);
    var n := 0;
    var enabled := SortUseCasesByOrder(Enabled(menu.useCases));
    ghost var rows := Rows(enabled, data);
    for i := 0 to |enabled|
      invariant n == i
      invariant lines == ShowAll(top + EntryLines(rows[..i]))
    {
      n := n + 1;
      var entry := RenderEntry(enabled[i], n, data);
      EntryLinesStep(top, rows, i);
      lines := lines + entry;
    }
    assert rows[..|enabled|] == rows;
    ShowAllConcat(top + EntryLines(rows), CustomLines(menu.customItems, |rows|));
    var items := RenderCustomItems(menu.customItems, n);
    text := Join('\n', lines + items);
  }

  /** The loop over the custom items. */
  method RenderCustomItems(items: seq<CustomItem>, n0: nat) returns (lines: seq<string>)
    ensures lines == ShowAll(CustomLines(items, n0))
  {
    lines := [];
    var n := n0;
    for i := 0 to |items|
      invariant n == n0 + i
      invariant lines == ShowAll(CustomLines(items[..i], n0))
    {
      n := n + 1;
      CustomLinesStep(items, n0, i);
      lines := lines + [NatToString(n) + ". " + items[i].title];
    }
    assert items[..|items|] == items;
  }

  /** The body of the loop over the enabled use cases. */
  method RenderEntry(u: UseCase, n: nat, data: LiveData) returns (lines: seq<string>)
    ensures lines == ShowAll(LinesOf(RowOf(u, data), n))
  {
    var title := u.title;
    if u.id == "shop" && data.shopItemCount.Some? {
      title := title + " (" + NatToString(data.shopItemCount.value) + " items)";
    }
    if u.id == "track" && data.openOrderCount.Some? {
      title := title + " (" + NatToString(data.openOrderCount.value) + " open)";
    }
    lines := [NatToString(n) + ". " + title];
    if u.id == "shop" && data.topProducts.Some? && |data.topProducts.value| > 0 {
      var names := FirstFive(data.topProducts.value);
      for i := 0 to |names|
        invariant lines == ShowAll([Entry(n, TitleOf(u, data))] + Products(names[..i]))
      {
        lines := lines + ["   \U{2022} " + names[i]];
      }
      assert names[..|names|] == names;
    }
  }

  // ---------------------------------------------------------------- what a reader of the menu sees

  /** The numbers of the numbered lines, from top to bottom. */
  function Numbers(lines: seq<Line>): seq<nat> {
    if lines == [] then []
    else
      var last := lines[|lines| - 1];
      Numbers(lines[..|lines| - 1]) + if last.Entry? then [last.n] else []
  }

  /** 1, 2, ..., k */
  function UpTo(k: nat): (r: seq<nat>)
    ensures |r| == k && forall i :: 0 <= i < k ==> r[i] == i + 1
  {
    if k == 0 then [] else UpTo(k - 1) + [k]
  }

  lemma {:induction false} NumbersConcat(a: seq<Line>, b: seq<Line>)
    ensures Numbers(a + b) == Numbers(a) + Numbers(b)
  {
    if b == [] {
      assert a + b == a;
    } else {
      var b' := b[..|b| - 1];
      assert (a + b)[..|a + b| - 1] == a + b';
      NumbersConcat(a, b');
    }
  }

  lemma {:induction false} NoNumbers(lines: seq<Line>)
    requires forall i :: 0 <= i < |lines| ==> !lines[i].Entry?
    ensures Numbers(lines) == []
  {
    if lines != [] {
      NoNumbers(lines[..|lines| - 1]);
    }
  }

  lemma NumbersOne(n: nat, text: string)
    ensures Numbers([Entry(n, text)]) == [n]
  {
    assert [Entry(n, text)][..0] == [];
  }

  lemma OneNumber(row: Row, n: nat)
    ensures Numbers(LinesOf(row, n)) == [n]
  {
    NumbersConcat([Entry(n, row.title)], Products(row.products));
    NumbersOne(n, row.title);
    NoNumbers(Products(row.products));
  }

  lemma {:induction false} EntriesAreNumbered(rows: seq<Row>)
    ensures Numbers(EntryLines(rows)) == UpTo(|rows|)
  {
    if rows != [] {
      var init, last := rows[..|rows| - 1], rows[|rows| - 1];
      EntriesAreNumbered(init);
      NumbersConcat(EntryLines(init), LinesOf(last, |rows|));
      OneNumber(last, |rows|);
    }
  }

  lemma {:induction false} CustomItemsAreNumbered(items: seq<CustomItem>, n: nat)
    ensures UpTo(n) + Numbers(CustomLines(items, n)) == UpTo(n + |items|)
  {
    if items != [] {
      var init, last := items[..|items| - 1], items[|items| - 1];
      CustomItemsAreNumbered(init, n);
      NumbersConcat(CustomLines(init, n), [Entry(n + |items|, last.title)]);
      NumbersOne(n + |items|, last.title);
      assert UpTo(n) + (Numbers(CustomLines(init, n)) + [n + |items|]) == UpTo(n + |init|) + [n + |items|];
    }
  }

  lemma {:induction false} ListIsNumbered(greeting: string, rows: seq<Row>, items: seq<CustomItem>)
    ensures Numbers(MenuOf(greeting, rows, items)) == UpTo(|rows| + |items|)
  {
    EntriesAreNumbered(rows);
    CustomItemsAreNumbered(items, |rows|);
    NumbersSplice(greeting, EntryLines(rows), CustomLines(items, |rows|), |rows|, |rows| + |items|);
  }

  lemma {:induction false} NumbersSplice(greeting: string, b: seq<Line>, c: seq<Line>, k: nat, n: nat)
    requires Numbers(b) == UpTo(k) && UpTo(k) + Numbers(c) == UpTo(n)
    ensures Numbers(Heading(greeting) + b + c) == UpTo(n)
  {
    NumbersOfThree(greeting, b, c);
  }

  /** The numbered lines run 1..K, K the number of enabled use cases and custom items. */
  lemma {:induction false} NumberedOneToK(menu: Menu, greeting: string, data: LiveData)
    ensures Numbers(MenuLines(menu, greeting, data)) == UpTo(|Enabled(menu.useCases)| + |menu.customItems|)
  {
    SortIsStable(Enabled(menu.useCases));
    ListIsNumbered(greeting, Rows(SortUseCasesByOrder(Enabled(menu.useCases)), data), menu.customItems);
  }

  lemma {:induction false} NumbersOfThree(greeting: string, b: seq<Line>, c: seq<Line>)
    ensures Numbers(Heading(greeting) + b + c) == Numbers(b) + Numbers(c)
  {
    HeadingHasNone(greeting, b);
    NumbersConcat(Heading(greeting) + b, c);
  }

  lemma HeadingHasNone(greeting: string, b: seq<Line>)
    ensures Numbers(Heading(greeting) + b) == Numbers(b)
  {
    var top := Heading(greeting);
    NoNumbers(top);
    NumbersConcat(top, b);
  }

  // ---------------------------------------------------------------- renumbering is not seen

  lemma {:induction false} FilterCommutes(s: seq<UseCase>, o: int)
    ensures Enabled(OfOrder(s, o)) == OfOrder(Enabled(s), o)
  {
    if s != [] {
      FilterCommutes(s[1..], o);
      if s[0].enabled {
        OfOrderCons(s[0], Enabled(s[1..]), o);
      } else {
        assert Enabled(s) == Enabled(s[1..]);
      }
      if s[0].order == o {
        EnabledCons(s[0], OfOrder(s[1..], o));
      } else {
        assert OfOrder(s, o) == OfOrder(s[1..], o);
      }
    }
  }

  lemma EnabledCons(u: UseCase, s: seq<UseCase>)
    ensures Enabled([u] + s) == (if u.enabled then [u] else []) + Enabled(s)
  {
    assert ([u] + s)[1..] == s;
  }

  lemma {:induction false} EnabledStaysSorted(s: seq<UseCase>)
    requires Sorted(s)
    ensures Sorted(Enabled(s))
    ensures Enabled(s) != [] ==> s != [] && s[0].order <= Enabled(s)[0].order
  {
    if s != [] {
      EnabledStaysSorted(s[1..]);
      ConsSorted(s[0], Enabled(s[1..]));
    }
  }

  lemma ConsSorted(u: UseCase, t: seq<UseCase>)
    requires Sorted(t) && (t != [] ==> u.order <= t[0].order)
    ensures Sorted([u] + t)
  {
  }

  /** Sorting the enabled entries is keeping the enabled ones of the sorted entries. */
  lemma SortAndFilterCommute(s: seq<UseCase>)
    ensures SortUseCasesByOrder(Enabled(s)) == Enabled(SortUseCasesByOrder(s))
  {
    var t := SortUseCasesByOrder(s);
    SortIsStable(s);
    EnabledStaysSorted(t);
    forall o ensures OfOrder(Enabled(t), o) == OfOrder(Enabled(s), o) {
      FilterCommutes(s, o);
      FilterCommutes(t, o);
      assert OfOrder(t, o) == OfOrder(s, o);
    }
    StableSortIsUnique(Enabled(s), Enabled(t));
  }

  /** Two lists with the same entries in the same sequence, whatever their orders. */
  ghost predicate SameEntries(a: seq<UseCase>, b: seq<UseCase>) {
    |a| == |b| && forall i :: 0 <= i < |a| ==> a[i] == b[i].(order := a[i].order)
  }

  lemma {:induction false} EnabledOfSameEntries(a: seq<UseCase>, b: seq<UseCase>)
    requires SameEntries(a, b)
    ensures SameEntries(Enabled(a), Enabled(b))
  {
    if a != [] {
      EnabledOfSameEntries(a[1..], b[1..]);
      assert a[0] == b[0].(order := a[0].order);
    }
  }

  lemma RowsOfSameEntries(a: seq<UseCase>, b: seq<UseCase>, data: LiveData)
    requires SameEntries(a, b)
    ensures Rows(a, data) == Rows(b, data)
  {
    forall i | 0 <= i < |a| ensures RowOf(a[i], data) == RowOf(b[i], data) {
      assert a[i] == b[i].(order := a[i].order);
    }
  }

  /** The renderer does not notice renumbering. */
  lemma RenderIgnoresRenumbering(menu: Menu, greeting: string, data: LiveData)
    ensures MenuLines(menu.(useCases := RenumberUseCases(menu.useCases)), greeting, data)
         == MenuLines(menu, greeting, data)
  {
    var s := menu.useCases;
    var sorted, r := SortUseCasesByOrder(s), RenumberUseCases(s);
    SortAndFilterCommute(s);
    SortAndFilterCommute(r);
    RenumberKeepsDisplay(s);
    EnabledOfSameEntries(r, sorted);
    RowsOfSameEntries(Enabled(r), Enabled(sorted), data);
  }

  // ---------------------------------------------------------------- the text, read back

  /** What a reader makes of the menu: numbered items with the names listed under them. */
  datatype Item = Item(n: nat, title: string, under: seq<string>)

  const BULLET := "   \U{2022} "

  predicate IsBullet(line: string) {
    |line| >= 5 && line[..5] == BULLET
  }

  /** The number at the start of the line, and what follows the point and the space after it. */
  function ReadNumbered(line: string): Item {
    var k := LeadingDigits(line);
    Item(Value(line[..k]), if k + 2 <= |line| then line[k + 2..] else "", [])
  }

  function AddUnder(items: seq<Item>, name: string): seq<Item> {
    if items == [] then []
    else
      var last := items[|items| - 1];
      items[..|items| - 1] + [last.(under := last.under + [name])]
  }

  /** Reading the lines of a menu from top to bottom. */
  function ReadItems(lines: seq<string>): seq<Item> {
    if lines == [] then []
    else
      var before, line := ReadItems(lines[..|lines| - 1]), lines[|lines| - 1];
      if IsBullet(line) then AddUnder(before, line[5..]) else before + [ReadNumbered(line)]
  }

  lemma {:induction false} DigitsLead(digits: string, rest: string)
    requires AllDigits(digits) && (rest != "" ==> !IsDigit(rest[0]))
    ensures LeadingDigits(digits + rest) == |digits|
  {
    if digits == "" {
      assert digits + rest == rest;
    } else {
      assert (digits + rest)[0] == digits[0] && (digits + rest)[1..] == digits[1..] + rest;
      DigitsLead(digits[1..], rest);
    }
  }

  lemma NumberedIsRead(n: nat, title: string)
    ensures !IsBullet(Show(Entry(n, title))) && ReadNumbered(Show(Entry(n, title))) == Item(n, title, [])
  {
    var digits, rest := NatToString(n), ". " + title;
    var line := Show(Entry(n, title));
    assert line == digits + rest && line[0] == digits[0];
    DigitsLead(digits, rest);
    NatToStringValue(n);
    assert line[..|digits|] == digits && line[|digits| + 2..] == title;
  }

  lemma BulletIsRead(name: string)
    ensures IsBullet(Show(Product(name))) && Show(Product(name))[5..] == name
  {
  }

  lemma NumberedLast(above: seq<string>, n: nat, title: string)
    ensures ReadItems(above + [Show(Entry(n, title))]) == ReadItems(above) + [Item(n, title, [])]
  {
    var line := Show(Entry(n, title));
    assert (above + [line])[..|above|] == above;
    NumberedIsRead(n, title);
  }

  lemma BulletLast(above: seq<string>, name: string)
    ensures ReadItems(above + [Show(Product(name))]) == AddUnder(ReadItems(above), name)
  {
    var line := Show(Product(name));
    assert (above + [line])[..|above|] == above;
    BulletIsRead(name);
  }

  /** The lines of a row with the first i of its names. */
  function RowText(row: Row, n: nat, i: nat): seq<string>
    requires i <= |row.products|
  {
    ShowAll([Entry(n, row.title)] + Products(row.products[..i]))
  }

  lemma RowTextStep(row: Row, n: nat, i: nat)
    requires 0 < i <= |row.products|
    ensures RowText(row, n, i) == RowText(row, n, i - 1) + [Show(Product(row.products[i - 1]))]
    ensures row.products[..i] == row.products[..i - 1] + [row.products[i - 1]]
  {
  }

  lemma RowTextStart(row: Row, n: nat)
    ensures RowText(row, n, 0) == [Show(Entry(n, row.title))]
  {
    assert [Entry(n, row.title)] + Products(row.products[..0]) == [Entry(n, row.title)];
  }

  /** One row, read after the lines above it: its number, its title and the first i names. */
  lemma {:induction false} RowIsRead(above: seq<string>, row: Row, n: nat, i: nat)
    requires i <= |row.products|
    ensures ReadItems(above + RowText(row, n, i)) == ReadItems(above) + [Item(n, row.title, row.products[..i])]
  {
    hide Show, ReadItems, RowText;
    if i == 0 {
      RowTextStart(row, n);
      NumberedLast(above, n, row.title);
    } else {
      var name, before := row.products[i - 1], RowText(row, n, i - 1);
      RowIsRead(above, row, n, i - 1);
      RowTextStep(row, n, i);
      assert above + (before + [Show(Product(name))]) == (above + before) + [Show(Product(name))];
      BulletLast(above + before, name);
      UnderOfLast(ReadItems(above), Item(n, row.title, row.products[..i - 1]), name);
    }
  }

  lemma UnderOfLast(items: seq<Item>, last: Item, name: string)
    ensures AddUnder(items + [last], name) == items + [last.(under := last.under + [name])]
  {
    assert (items + [last])[..|items|] == items;
  }

  function RowItems(rows: seq<Row>): (r: seq<Item>)
    ensures |r| == |rows| && forall k :: 0 <= k < |rows| ==> r[k] == Item(k + 1, rows[k].title, rows[k].products)
  {
    seq(|rows|, k requires 0 <= k < |rows| => Item(k + 1, rows[k].title, rows[k].products))
  }

  lemma RowTextWhole(row: Row, n: nat)
    ensures RowText(row, n, |row.products|) == ShowAll(LinesOf(row, n))
    ensures row.products[..|row.products|] == row.products
  {
  }

  lemma NothingToRead()
    ensures ReadItems(ShowAll([])) == []
  {
  }

  lemma {:induction false} EntriesAreRead(rows: seq<Row>)
    ensures ReadItems(ShowAll(EntryLines(rows))) == RowItems(rows)
  {
    hide Show, ReadItems, RowText, LinesOf;
    if rows == [] {
      NothingToRead();
    } else {
      var init, last := rows[..|rows| - 1], rows[|rows| - 1];
      EntriesAreRead(init);
      ShowAllConcat(EntryLines(init), LinesOf(last, |rows|));
      RowIsRead(ShowAll(EntryLines(init)), last, |rows|, |last.products|);
      RowTextWhole(last, |rows|);
      assert RowItems(rows) == RowItems(init) + [Item(|rows|, last.title, last.products)];
    }
  }

  function CustomItems(items: seq<CustomItem>, n: nat): (r: seq<Item>)
    ensures |r| == |items| && forall k :: 0 <= k < |items| ==> r[k] == Item(n + k + 1, items[k].title, [])
  {
    seq(|items|, k requires 0 <= k < |items| => Item(n + k + 1, items[k].title, []))
  }

  lemma {:induction false} CustomsAreRead(above: seq<string>, items: seq<CustomItem>, n: nat)
    ensures ReadItems(above + ShowAll(CustomLines(items, n))) == ReadItems(above) + CustomItems(items, n)
  {
    hide Show, ReadItems;
    if items == [] {
      assert above + ShowAll(CustomLines(items, n)) == above;
    } else {
      var i := |items| - 1;
      var before := ShowAll(CustomLines(items[..i], n));
      CustomsAreRead(above, items[..i], n);
      CustomLinesStep(items, n, i);
      assert items[..i + 1] == items;
      assert above + (before + [Show(Entry(n + i + 1, items[i].title))])
          == (above + before) + [Show(Entry(n + i + 1, items[i].title))];
      NumberedLast(above + before, n + i + 1, items[i].title);
      assert CustomItems(items, n) == CustomItems(items[..i], n) + [Item(n + i + 1, items[i].title, [])];
    }
  }

  predicate OneLine(s: string) {
    '\n' !in s
  }

  /** No text of the menu holds a line end. */
  predicate OneLineEach(menu: Menu, greeting: string, data: LiveData) {
    && OneLine(greeting)
    && (forall u :: u in menu.useCases ==> OneLine(u.title))
    && (forall item :: item in menu.customItems ==> OneLine(item.title))
    && (data.topProducts.Some? ==> forall name :: name in data.topProducts.value ==> OneLine(name))
  }

  predicate OneLineShown(lines: seq<Line>) {
    forall i :: 0 <= i < |lines| ==> OneLine(Show(lines[i]))
  }

  lemma NumberHasNoLineEnd(n: nat)
    ensures OneLine(NatToString(n))
  {
    var s := NatToString(n);
    assert forall i :: 0 <= i < |s| ==> IsDigit(s[i]);
  }

  lemma EntryIsOneLine(n: nat, title: string)
    requires OneLine(title)
    ensures OneLine(Show(Entry(n, title)))
  {
    NumberHasNoLineEnd(n);
  }

  predicate OneLineRow(row: Row) {
    OneLine(row.title) && forall i :: 0 <= i < |row.products| ==> OneLine(row.products[i])
  }

  lemma {:induction false} EntriesAreOneLine(rows: seq<Row>)
    requires forall k :: 0 <= k < |rows| ==> OneLineRow(rows[k])
    ensures OneLineShown(EntryLines(rows))
  {
    if rows != [] {
      var init, last := rows[..|rows| - 1], rows[|rows| - 1];
      EntriesAreOneLine(init);
      EntryIsOneLine(|rows|, last.title);
      var lines := LinesOf(last, |rows|);
      assert OneLineRow(last);
      forall i | 0 <= i < |lines| ensures OneLine(Show(lines[i])) {
        assert i > 0 ==> lines[i] == Product(last.products[i - 1]);
      }
    }
  }

  lemma {:induction false} CustomsAreOneLine(items: seq<CustomItem>, n: nat)
    requires forall item :: item in items ==> OneLine(item.title)
    ensures OneLineShown(CustomLines(items, n))
  {
    if items != [] {
      var init, last := items[..|items| - 1], items[|items| - 1];
      CustomsAreOneLine(init, n);
      EntryIsOneLine(n + |items|, last.title);
    }
  }

  lemma RowIsOneLine(u: UseCase, data: LiveData)
    requires OneLine(u.title)
    requires data.topProducts.Some? ==> forall name :: name in data.topProducts.value ==> OneLine(name)
    ensures OneLineRow(RowOf(u, data))
  {
    if data.shopItemCount.Some? {
      NumberHasNoLineEnd(data.shopItemCount.value);
    }
    if data.openOrderCount.Some? {
      NumberHasNoLineEnd(data.openOrderCount.value);
    }
  }

  /** How often an entry is listed: as often as it is there, if it is enabled. */
  lemma {:induction false} EnabledCounts(s: seq<UseCase>, u: UseCase)
    ensures multiset(Enabled(s))[u] == if u.enabled then multiset(s)[u] else 0
  {
    if s != [] {
      EnabledCounts(s[1..], u);
      assert s == [s[0]] + s[1..];
    }
  }

  lemma {:induction false} InsertCounts(u: UseCase, s: seq<UseCase>)
    ensures multiset(Insert(u, s)) == multiset(s) + multiset{u}
  {
    if s != [] && u.order > s[0].order {
      InsertCounts(u, s[1..]);
      assert s == [s[0]] + s[1..];
    }
  }

  lemma {:induction false} SortCounts(s: seq<UseCase>)
    ensures multiset(SortUseCasesByOrder(s)) == multiset(s)
  {
    if s != [] {
      SortCounts(s[1..]);
      InsertCounts(s[0], SortUseCasesByOrder(s[1..]));
      assert s == [s[0]] + s[1..];
    }
  }

  /** shown is what the menu lists: the enabled entries by order, equal orders in their sequence. */
  ghost predicate IsShown(s: seq<UseCase>, shown: seq<UseCase>) {
    && IsStableSort(Enabled(s), shown)
    && forall u :: multiset(shown)[u] == if u.enabled then multiset(s)[u] else 0
  }

  /** The title of a use case, with the live count for shop and track. */
  predicate IsTitle(title: string, u: UseCase, data: LiveData) {
    title == u.title +
      match (u.id, data.shopItemCount, data.openOrderCount)
      case ("shop", Some(n), _) => " (" + NatToString(n) + " items)"
      case ("track", _, Some(n)) => " (" + NatToString(n) + " open)"
      case _ => ""
  }

  /** The names under it: the first five products for shop, none for the others. */
  predicate IsUnder(names: seq<string>, u: UseCase, data: LiveData) {
    if u.id == "shop" && data.topProducts.Some? then
      names <= data.topProducts.value && (|names| == 5 || (|names| < 5 && names == data.topProducts.value))
    else names == []
  }

  /** items are those of a menu: the entries that are shown and the custom items, numbered through. */
  ghost predicate ReadsAs(items: seq<Item>, shown: seq<UseCase>, menu: Menu, data: LiveData) {
    && IsShown(menu.useCases, shown)
    && |items| == |shown| + |menu.customItems|
    && (forall k :: 0 <= k < |items| ==> items[k].n == k + 1)
    && (forall k :: 0 <= k < |shown| ==>
          IsTitle(items[k].title, shown[k], data) && IsUnder(items[k].under, shown[k], data))
    && forall k :: |shown| <= k < |items| ==>
         items[k].title == menu.customItems[k - |shown|].title && items[k].under == []
  }

  lemma RowReadsAs(u: UseCase, data: LiveData)
    ensures IsTitle(RowOf(u, data).title, u, data) && IsUnder(RowOf(u, data).products, u, data)
  {
    assert u.title + "" == u.title;
  }

  lemma ShownRows(menu: Menu, data: LiveData) returns (shown: seq<UseCase>)
    ensures shown == SortUseCasesByOrder(Enabled(menu.useCases)) && IsShown(menu.useCases, shown)
    ensures forall u :: u in shown ==> u in menu.useCases
  {
    shown := SortUseCasesByOrder(Enabled(menu.useCases));
    SortIsStable(Enabled(menu.useCases));
    SortCounts(Enabled(menu.useCases));
    forall u ensures multiset(shown)[u] == if u.enabled then multiset(menu.useCases)[u] else 0 {
      EnabledCounts(menu.useCases, u);
    }
    forall u | u in shown ensures u in menu.useCases {
      assert u in multiset(shown);
      assert u in multiset(menu.useCases);
    }
  }

  lemma MenuIsOneLine(menu: Menu, greeting: string, data: LiveData)
    requires OneLineEach(menu, greeting, data)
    ensures OneLineShown(MenuLines(menu, greeting, data))
  {
    hide Show, RowOf, OneLineRow;
    var shown := ShownRows(menu, data);
    var rows := Rows(shown, data);
    forall k | 0 <= k < |rows| ensures OneLineRow(rows[k]) {
      RowIsOneLine(shown[k], data);
    }
    HeadingIsOneLine(greeting);
    EntriesAreOneLine(rows);
    CustomsAreOneLine(menu.customItems, |rows|);
  }

  lemma HeadingIsOneLine(greeting: string)
    requires OneLine(greeting)
    ensures OneLineShown(Heading(greeting))
  {
  }

  lemma ItemsReadAs(shown: seq<UseCase>, menu: Menu, data: LiveData)
    requires IsShown(menu.useCases, shown)
    ensures var rows := Rows(shown, data);
      ReadsAs(RowItems(rows) + CustomItems(menu.customItems, |rows|), shown, menu, data)
  {
    hide RowOf, IsTitle, IsUnder;
    forall k | 0 <= k < |shown|
      ensures IsTitle(RowOf(shown[k], data).title, shown[k], data)
      ensures IsUnder(RowOf(shown[k], data).products, shown[k], data)
    {
      RowReadsAs(shown[k], data);
    }
  }

  /**
    Reading the rendered text back gives the menu: the greeting, a blank line, and items numbered
    1..K that are the enabled entries by order, with their live counts and at most five products
    under the shop, and then the custom items.
   */
  lemma RenderedMenuReadsBack(menu: Menu, greeting: string, data: LiveData, text: string)
    requires OneLineEach(menu, greeting, data)
    requires text == Join('\n', ShowAll(MenuLines(menu, greeting, data)))
    ensures var lines := Split('\n', text);
      && |lines| >= 2 && lines[0] == greeting && lines[1] == ""
      && exists shown :: ReadsAs(ReadItems(lines[2..]), shown, menu, data)
  {
    hide Show, ReadItems, RowOf;
    var shown := ShownRows(menu, data);
    var rows := Rows(shown, data);
    var all := MenuLines(menu, greeting, data);
    MenuIsOneLine(menu, greeting, data);
    SplitJoin('\n', ShowAll(all));
    TopOfMenu(greeting, EntryLines(rows), CustomLines(menu.customItems, |rows|));
    EntriesAreRead(rows);
    CustomsAreRead(ShowAll(EntryLines(rows)), menu.customItems, |rows|);
    ItemsReadAs(shown, menu, data);
  }

  lemma TopOfMenu(greeting: string, entries: seq<Line>, customs: seq<Line>)
    ensures var lines := ShowAll(Heading(greeting) + entries + customs);
      && |lines| >= 2 && lines[0] == greeting && lines[1] == ""
      && lines[2..] == ShowAll(entries) + ShowAll(customs)
  {
  }
}
