/**
  Editing a menu draft, shared/waMenu.ts: the uniqueness checks of the validator, and the
  one-slot moves of the admin menu builder.
 */
module MenuDraft {
  import opened Common
  import opened WaMenu

  // ---------------------------------------------------------------- the validator

  ghost predicate Distinct<T>(xs: seq<T>) {
    forall i, j :: 0 <= i < j < |xs| ==> xs[i] != xs[j]
  }

  function Ids(s: seq<UseCase>): (r: seq<Id>)
    ensures |r| == |s| && forall i :: 0 <= i < |s| ==> r[i] == s[i].id
  {
    seq(|s|, i requires 0 <= i < |s| => s[i].id)
  }

  function Orders(s: seq<UseCase>): (r: seq<int>)
    ensures |r| == |s| && forall i :: 0 <= i < |s| ==> r[i] == s[i].order
  {
    seq(|s|, i requires 0 <= i < |s| => s[i].order)
  }

  function Keys(items: seq<CustomItem>): (r: seq<string>)
    ensures |r| == |items| && forall i :: 0 <= i < |items| ==> r[i] == items[i].key
  {
    seq(|items|, i requires 0 <= i < |items| => items[i].key)
  }

  datatype Issue =
    | DuplicateId(id: Id)
    | OrderCollision(existing: Id, id: Id, order: int)
    | DuplicateKey(key: string)

  /** How many elements repeat an earlier one. */
  function Repeats<T(==)>(xs: seq<T>): nat {
    if xs == [] then 0
    else
      var n := |xs| - 1;
      Repeats(xs[..n]) + if xs[n] in xs[..n] then 1 else 0
  }

  lemma DistinctSnoc<T>(xs: seq<T>, x: T)
    ensures Distinct(xs + [x]) <==> Distinct(xs) && x !in xs
  {
    var ys := xs + [x];
    assert ys[|xs|] == x && forall i :: 0 <= i < |xs| ==> ys[i] == xs[i];
  }

  lemma ElementsSnoc<T>(xs: seq<T>, x: T)
    ensures (set y | y in xs + [x]) == (set y | y in xs) + {x}
  {
  }

  lemma {:induction false} RepeatsCount<T>(xs: seq<T>)
    ensures Repeats(xs) + |set x | x in xs| == |xs|
    ensures Repeats(xs) == 0 <==> Distinct(xs)
  {
    if xs == [] {
      assert (set x | x in xs) == {};
    } else {
      var init, last := xs[..|xs| - 1], xs[|xs| - 1];
      RepeatsCount(init);
      assert xs == init + [last];
      ElementsSnoc(init, last);
      DistinctSnoc(init, last);
    }
  }

  /** The id of the last entry with this order, which is what the map of seen orders holds. */
  function LastOfOrder(s: seq<UseCase>, o: int): Option<Id> {
    if s == [] then None
    else if s[|s| - 1].order == o then Some(s[|s| - 1].id)
    else LastOfOrder(s[..|s| - 1], o)
  }

  lemma {:induction false} LastOfOrderExists(s: seq<UseCase>, o: int)
    ensures LastOfOrder(s, o).Some? <==> o in Orders(s)
  {
    if s != [] {
      var init := s[..|s| - 1];
      LastOfOrderExists(init, o);
      assert Orders(s) == Orders(init) + [s[|s| - 1].order];
    }
  }

  function IdIssues(ids: seq<Id>): seq<Issue> {
    if ids == [] then []
    else
      var n := |ids| - 1;
      IdIssues(ids[..n]) + if ids[n] in ids[..n] then [DuplicateId(ids[n])] else []
  }

  function OrderIssues(s: seq<UseCase>): seq<Issue> {
    if s == [] then []
    else
      var init, u := s[..|s| - 1], s[|s| - 1];
      OrderIssues(init) +
      match LastOfOrder(init, u.order)
      case None => []
      case Some(existing) => [OrderCollision(existing, u.id, u.order)]
  }

  function KeyIssues(keys: seq<string>): seq<Issue> {
    if keys == [] then []
    else
      var n := |keys| - 1;
      KeyIssues(keys[..n]) + if keys[n] in keys[..n] then [DuplicateKey(keys[n])] else []
  }

  function Issues(menu: Menu): seq<Issue> {
    IdIssues(Ids(menu.useCases)) + OrderIssues(menu.useCases) + KeyIssues(Keys(menu.customItems))
  }

  /** The three loops of superRefine. */
  method SuperRefine(menu: Menu) returns (issues: seq<Issue>)
    ensures issues == Issues(menu)
  {
    var byId := CheckIds(menu.useCases);
    var byOrder := CheckOrders(menu.useCases);
    var byKey := CheckKeys(menu.customItems);
    issues := byId + byOrder + byKey;
  }

  method CheckIds(useCases: seq<UseCase>) returns (issues: seq<Issue>)
    ensures issues == IdIssues(Ids(useCases))
  {
    issues := [];
    var seenIds: set<Id> := {};
    ghost var ids := Ids(useCases);
    for i := 0 to |useCases|
      invariant forall id :: id in seenIds <==> id in ids[..i]
      invariant issues == IdIssues(ids[..i])
    {
      var uc := useCases[i];
      assert ids[..i + 1][..i] == ids[..i] && ids[..i + 1] == ids[..i] + [uc.id];
      if uc.id in seenIds {
        issues := issues + [DuplicateId(uc.id)];
      }
      seenIds := seenIds + {uc.id};
    }
    assert ids[..|useCases|] == ids;
  }

  method CheckOrders(useCases: seq<UseCase>) returns (issues: seq<Issue>)
    ensures issues == OrderIssues(useCases)
  {
    issues := [];
    var seenOrders: map<int, Id> := map[];
    for i := 0 to |useCases|
      invariant forall o :: o in seenOrders <==> LastOfOrder(useCases[..i], o).Some?
      invariant forall o :: o in seenOrders ==> LastOfOrder(useCases[..i], o) == Some(seenOrders[o])
      invariant issues == OrderIssues(useCases[..i])
    {
      var uc := useCases[i];
      assert useCases[..i + 1][..i] == useCases[..i];
      if uc.order in seenOrders {
        issues := issues + [OrderCollision(seenOrders[uc.order], uc.id, uc.order)];
      }
      seenOrders := seenOrders[uc.order := uc.id];
    }
    assert useCases[..|useCases|] == useCases;
  }

  method CheckKeys(customItems: seq<CustomItem>) returns (issues: seq<Issue>)
    ensures issues == KeyIssues(Keys(customItems))
  {
    issues := [];
    var seenKeys: set<string> := {};
    ghost var keys := Keys(customItems);
    for i := 0 to |customItems|
      invariant forall k :: k in seenKeys <==> k in keys[..i]
      invariant issues == KeyIssues(keys[..i])
    {
      var item := customItems[i];
      assert keys[..i + 1][..i] == keys[..i] && keys[..i + 1] == keys[..i] + [item.key];
      if item.key in seenKeys {
        issues := issues + [DuplicateKey(item.key)];
      }
      seenKeys := seenKeys + {item.key};
    }
    assert keys[..|customItems|] == keys;
  }

  lemma {:induction false} IdIssuesCount(ids: seq<Id>)
    ensures |IdIssues(ids)| == Repeats(ids)
  {
    if ids != [] {
      IdIssuesCount(ids[..|ids| - 1]);
    }
  }

  lemma {:induction false} OrderIssuesCount(s: seq<UseCase>)
    ensures |OrderIssues(s)| == Repeats(Orders(s))
  {
    if s != [] {
      var init := s[..|s| - 1];
      OrderIssuesCount(init);
      LastOfOrderExists(init, s[|s| - 1].order);
      assert Orders(s)[..|s| - 1] == Orders(init);
    }
  }

  lemma {:induction false} KeyIssuesCount(keys: seq<string>)
    ensures |KeyIssues(keys)| == Repeats(keys)
  {
    if keys != [] {
      KeyIssuesCount(keys[..|keys| - 1]);
    }
  }

  /**
    The validator reports one issue for every id, order and key beyond the distinct ones, and so
    none exactly when all ids, all orders and all keys differ.
   */
  lemma ValidatorCountsRepetitions(menu: Menu)
    ensures var ids, orders, keys := Ids(menu.useCases), Orders(menu.useCases), Keys(menu.customItems);
      && |Issues(menu)| == (|ids| - |set x | x in ids|) + (|orders| - |set x | x in orders|)
                           + (|keys| - |set x | x in keys|)
      && (Issues(menu) == [] <==> Distinct(ids) && Distinct(orders) && Distinct(keys))
  {
    var ids, orders, keys := Ids(menu.useCases), Orders(menu.useCases), Keys(menu.customItems);
    IdIssuesCount(ids);
    OrderIssuesCount(menu.useCases);
    KeyIssuesCount(keys);
    RepeatsCount(ids);
    RepeatsCount(orders);
    RepeatsCount(keys);
  }

  lemma {:induction false} IdIssueAt(ids: seq<Id>, j: nat)
    requires j < |ids| && ids[j] in ids[..j]
    ensures var n := Repeats(ids[..j]); n < |IdIssues(ids)| && IdIssues(ids)[n] == DuplicateId(ids[j])
    decreases |ids|
  {
    var init := ids[..|ids| - 1];
    if j == |init| {
      IdIssuesCount(init);
    } else {
      assert init[..j] == ids[..j];
      IdIssueAt(init, j);
    }
  }

  lemma {:induction false} KeyIssueAt(keys: seq<string>, j: nat)
    requires j < |keys| && keys[j] in keys[..j]
    ensures var n := Repeats(keys[..j]); n < |KeyIssues(keys)| && KeyIssues(keys)[n] == DuplicateKey(keys[j])
    decreases |keys|
  {
    var init := keys[..|keys| - 1];
    if j == |init| {
      KeyIssuesCount(init);
    } else {
      assert init[..j] == keys[..j];
      KeyIssueAt(init, j);
    }
  }

  /** Entry i is the last one before j that has its order. */
  predicate LastBefore(s: seq<UseCase>, i: nat, j: nat)
    requires j < |s|
  {
    i < j && s[i].order == s[j].order && forall m :: i < m < j ==> s[m].order != s[j].order
  }

  lemma {:induction false} LastOfOrderIs(s: seq<UseCase>, i: nat, o: int)
    requires i < |s| && s[i].order == o && forall m :: i < m < |s| ==> s[m].order != o
    ensures LastOfOrder(s, o) == Some(s[i].id)
  {
    if i < |s| - 1 {
      LastOfOrderIs(s[..|s| - 1], i, o);
    }
  }

  lemma {:induction false} OrderIssueAt(s: seq<UseCase>, i: nat, j: nat)
    requires j < |s| && LastBefore(s, i, j)
    ensures var n := Repeats(Orders(s[..j]));
      n < |OrderIssues(s)| && OrderIssues(s)[n] == OrderCollision(s[i].id, s[j].id, s[j].order)
    decreases |s|
  {
    var init := s[..|s| - 1];
    if j == |init| {
      OrderIssuesCount(init);
      LastOfOrderIs(init, i, s[j].order);
    } else {
      assert init[..j] == s[..j];
      OrderIssueAt(init, i, j);
    }
  }

  predicate ReportedAt(menu: Menu, n: nat, issue: Issue) {
    n < |Issues(menu)| && Issues(menu)[n] == issue
  }

  /**
    What is reported, and in which sequence: one issue for each repeated id, then for each order
    that collides, naming the last earlier entry with that order, then for each repeated key; within
    a kind the k-th repetition is the k-th issue.
   */
  lemma ReportsEachRepetition(menu: Menu)
    ensures var ids, orders, keys := Ids(menu.useCases), Orders(menu.useCases), Keys(menu.customItems);
      && |Issues(menu)| == Repeats(ids) + Repeats(orders) + Repeats(keys)
      && (forall j :: 0 <= j < |ids| && ids[j] in ids[..j] ==>
            ReportedAt(menu, Repeats(ids[..j]), DuplicateId(ids[j])))
      && (forall i: nat, j: nat :: j < |orders| && LastBefore(menu.useCases, i, j) ==>
            ReportedAt(menu, Repeats(ids) + Repeats(orders[..j]), OrderCollision(ids[i], ids[j], orders[j])))
      && forall j :: 0 <= j < |keys| && keys[j] in keys[..j] ==>
           ReportedAt(menu, Repeats(ids) + Repeats(orders) + Repeats(keys[..j]), DuplicateKey(keys[j]))
  {
    hide IdIssues, OrderIssues, KeyIssues, Repeats;
    var ids, orders, keys := Ids(menu.useCases), Orders(menu.useCases), Keys(menu.customItems);
    IdIssuesCount(ids);
    OrderIssuesCount(menu.useCases);
    KeyIssuesCount(keys);
    forall j | 0 <= j < |ids| && ids[j] in ids[..j]
      ensures ReportedAt(menu, Repeats(ids[..j]), DuplicateId(ids[j]))
    {
      IdIssueAt(ids, j);
    }
    forall i: nat, j: nat | j < |orders| && LastBefore(menu.useCases, i, j)
      ensures ReportedAt(menu, Repeats(ids) + Repeats(orders[..j]), OrderCollision(ids[i], ids[j], orders[j]))
    {
      assert orders[..j] == Orders(menu.useCases[..j]);
      OrderIssueAt(menu.useCases, i, j);
    }
    forall j | 0 <= j < |keys| && keys[j] in keys[..j]
      ensures ReportedAt(menu, Repeats(ids) + Repeats(orders) + Repeats(keys[..j]), DuplicateKey(keys[j]))
    {
      KeyIssueAt(keys, j);
    }
  }

  // ---------------------------------------------------------------- one-slot moves

  datatype Direction = Up | Down

  /** useCases.findIndex on a list of ids: the first position of id, or -1. */
  function FindIndex(p: seq<Id>, id: Id): (k: int)
    ensures -1 <= k < |p|
    ensures k >= 0 ==> p[k] == id && id !in p[..k]
    ensures k < 0 ==> id !in p
  {
    if p == [] then -1
    else if p[0] == id then 0
    else
      var k := FindIndex(p[1..], id);
      assert k >= 0 ==> p[..k + 1] == [p[0]] + p[1..][..k];
      if k < 0 then -1 else k + 1
  }

  /** Where the entry would go: None when it is absent or already at that edge. */
  function Slot(p: seq<Id>, id: Id, direction: Direction): (r: Option<nat>)
    ensures r.Some? ==> 0 <= FindIndex(p, id) && r.value < |p|
    ensures r.Some? ==> r.value == if direction.Up? then FindIndex(p, id) - 1 else FindIndex(p, id) + 1
  {
    var idx := FindIndex(p, id);
    if idx < 0 then None
    else
      var target := if direction.Up? then idx - 1 else idx + 1;
      if target < 0 || target >= |p| then None else Some(target)
  }

  function Swap<T>(s: seq<T>, i: nat, j: nat): (r: seq<T>)
    requires i < |s| && j < |s|
    ensures |r| == |s| && r[i] == s[j] && r[j] == s[i]
    ensures forall k :: 0 <= k < |s| && k != i && k != j ==> r[k] == s[k]
  {
    s[i := s[j]][j := s[i]]
  }

  /** The use cases in the sequence in which they are displayed. */
  function Display(s: seq<UseCase>): (r: seq<Id>)
    ensures |r| == |s|
  {
    SortIsStable(s);
    Ids(SortUseCasesByOrder(s))
  }

  /** Two entries exchanged, then the orders rewritten to 1..N. */
  function Swapped(s: seq<UseCase>, i: nat, j: nat): (r: seq<UseCase>)
    requires i < |s| && j < |s|
    ensures |r| == |s| && Sorted(r)
  {
    Numbered(Swap(s, i, j))
  }

  lemma SwappedIds(s: seq<UseCase>, i: nat, j: nat)
    requires i < |s| && j < |s|
    ensures Ids(Swapped(s, i, j)) == Swap(Ids(s), i, j)
  {
  }

  lemma SwappedBare(s: seq<UseCase>, i: nat, j: nat)
    requires i < |s| && j < |s|
    ensures Project(Bare, Swapped(s, i, j)) == Swap(Project(Bare, s), i, j)
  {
  }

  function Move(s: seq<UseCase>, id: Id, direction: Direction): seq<UseCase> {
    match Slot(Display(s), id, direction)
    case None => SortUseCasesByOrder(s)
    case Some(target) => Swapped(SortUseCasesByOrder(s), FindIndex(Display(s), id), target)
  }

  predicate CanMove(s: seq<UseCase>, id: Id, direction: Direction) {
    Slot(Display(s), id, direction).Some?
  }

  method MoveUseCase(useCases: seq<UseCase>, id: Id, direction: Direction) returns (r: seq<UseCase>)
    ensures r == Move(useCases, id, direction)
  {
    var sorted := SortUseCasesByOrder(useCases);
    var idx := FindIndex(Ids(sorted), id);
    if idx < 0 {
      return sorted;
    }
    var target := if direction == Up then idx - 1 else idx + 1;
    if target < 0 || target >= |sorted| {
      return sorted;
    }
    sorted := sorted[idx := sorted[target]][target := sorted[idx]];
    r := Numbered(sorted);
  }

  /** A move that goes nowhere returns the sorted list with its old orders. */
  lemma NoMoveKeepsOrders(s: seq<UseCase>, id: Id, direction: Direction)
    requires !CanMove(s, id, direction)
    ensures IsStableSort(s, Move(s, id, direction))
  {
    SortIsStable(s);
  }

  /** The same slot step on the displayed ids alone. */
  function MoveIds(p: seq<Id>, id: Id, direction: Direction): (r: seq<Id>)
    ensures |r| == |p|
  {
    match Slot(p, id, direction)
    case None => p
    case Some(target) => Swap(p, FindIndex(p, id), target)
  }

  lemma MoveSortsToItself(s: seq<UseCase>, id: Id, direction: Direction)
    ensures SortUseCasesByOrder(Move(s, id, direction)) == Move(s, id, direction)
  {
    SortIsStable(s);
    SortOfSorted(Move(s, id, direction));
  }

  lemma MoveDisplays(s: seq<UseCase>, id: Id, direction: Direction)
    ensures Display(Move(s, id, direction)) == MoveIds(Display(s), id, direction)
  {
    MoveSortsToItself(s, id, direction);
    if CanMove(s, id, direction) {
      SwappedIds(SortUseCasesByOrder(s), FindIndex(Display(s), id), Slot(Display(s), id, direction).value);
    }
  }

  // ---------------------------------------------------------------- sorting only permutes

  function Project<T>(f: UseCase -> T, s: seq<UseCase>): (r: seq<T>)
    ensures |r| == |s| && forall i :: 0 <= i < |s| ==> r[i] == f(s[i])
  {
    seq(|s|, i requires 0 <= i < |s| => f(s[i]))
  }

  lemma ProjectCons<T>(f: UseCase -> T, u: UseCase, s: seq<UseCase>)
    ensures multiset(Project(f, [u] + s)) == multiset(Project(f, s)) + multiset{f(u)}
  {
    assert Project(f, [u] + s) == [f(u)] + Project(f, s);
  }

  lemma {:induction false} InsertPermutes<T>(f: UseCase -> T, u: UseCase, s: seq<UseCase>)
    ensures multiset(Project(f, Insert(u, s))) == multiset(Project(f, s)) + multiset{f(u)}
  {
    if s == [] || u.order <= s[0].order {
      ProjectCons(f, u, s);
    } else {
      InsertPermutes(f, u, s[1..]);
      ProjectCons(f, s[0], Insert(u, s[1..]));
      ProjectCons(f, s[0], s[1..]);
      assert s == [s[0]] + s[1..];
    }
  }

  lemma {:induction false} SortPermutes<T>(f: UseCase -> T, s: seq<UseCase>)
    ensures multiset(Project(f, SortUseCasesByOrder(s))) == multiset(Project(f, s))
  {
    if s != [] {
      SortPermutes(f, s[1..]);
      InsertPermutes(f, s[0], SortUseCasesByOrder(s[1..]));
      ProjectCons(f, s[0], s[1..]);
      assert s == [s[0]] + s[1..];
    }
  }

  lemma SwapPermutes<T>(s: seq<T>, i: nat, j: nat)
    requires i < |s| && j < |s|
    ensures multiset(Swap(s, i, j)) == multiset(s)
  {
  }

  lemma DistinctPermuted<T>(a: seq<T>, b: seq<T>)
    requires multiset(a) == multiset(b)
    ensures Distinct(a) <==> Distinct(b)
    ensures |a| == |b|
  {
    RepeatsCount(a);
    RepeatsCount(b);
    assert |a| == |multiset(a)| && |b| == |multiset(b)|;
    forall x ensures x in a <==> x in b {
      assert x in multiset(a) <==> x in multiset(b);
    }
    assert (set x | x in a) == (set x | x in b);
  }

  /** An entry without its order. */
  function Bare(u: UseCase): UseCase {
    u.(order := 0)
  }

  function IdOf(u: UseCase): Id {
    u.id
  }

  lemma DisplayPermutes(s: seq<UseCase>)
    ensures multiset(Display(s)) == multiset(Ids(s))
  {
    SortPermutes(IdOf, s);
    assert Display(s) == Project(IdOf, SortUseCasesByOrder(s)) && Ids(s) == Project(IdOf, s);
  }

  // ---------------------------------------------------------------- up and down again

  function Opposite(direction: Direction): Direction {
    if direction.Up? then Down else Up
  }

  lemma FoundAt(p: seq<Id>, id: Id, k: nat)
    requires Distinct(p) && k < |p| && p[k] == id
    ensures FindIndex(p, id) == k
  {
  }

  lemma BackIsPossible(p: seq<Id>, id: Id, direction: Direction)
    requires Distinct(p) && Slot(p, id, direction).Some?
    ensures FindIndex(MoveIds(p, id, direction), id) == Slot(p, id, direction).value
    ensures Slot(MoveIds(p, id, direction), id, Opposite(direction)) == Some(FindIndex(p, id))
  {
    var idx, target := FindIndex(p, id), Slot(p, id, direction).value;
    DistinctSwap(p, idx, target);
    FoundAt(Swap(p, idx, target), id, target);
  }

  /** An effective move followed by the opposite one leaves the list renumbered and nothing else. */
  lemma MoveAndBack(s: seq<UseCase>, id: Id, direction: Direction)
    requires Distinct(Ids(s)) && CanMove(s, id, direction)
    ensures Move(Move(s, id, direction), id, Opposite(direction)) == RenumberUseCases(s)
  {
    DisplayPermutes(s);
    DistinctPermuted(Display(s), Ids(s));
    MoveSortsToItself(s, id, direction);
    MoveDisplays(s, id, direction);
    BackIsPossible(Display(s), id, direction);
    SwappedTwice(SortUseCasesByOrder(s), FindIndex(Display(s), id), Slot(Display(s), id, direction).value);
  }

  lemma SwappedTwice(s: seq<UseCase>, i: nat, j: nat)
    requires i < |s| && j < |s|
    ensures Swapped(Swapped(s, i, j), j, i) == Numbered(s)
  {
  }

  lemma DistinctSwap<T>(p: seq<T>, i: nat, j: nat)
    requires i < |p| && j < |p|
    ensures Distinct(Swap(p, i, j)) <==> Distinct(p)
  {
    var r := Swap(p, i, j);
    assert Swap(r, i, j) == p;
    if Distinct(p) {
      StillDistinct(p, i, j);
    }
    if Distinct(r) {
      StillDistinct(r, i, j);
    }
  }

  lemma StillDistinct<T>(p: seq<T>, i: nat, j: nat)
    requires Distinct(p) && i < |p| && j < |p|
    ensures Distinct(Swap(p, i, j))
  {
  }

  /** Said on the displayed ids: an entry trades places with the one before or after it. */
  lemma MoveIsOneSlot(s: seq<UseCase>, id: Id, k: nat)
    requires Distinct(Ids(s)) && k < |s| && Display(s)[k] == id
    ensures var p := Display(s);
      && Display(Move(s, id, Up)) == (if k == 0 then p else p[..k - 1] + [id, p[k - 1]] + p[k + 1..])
      && Display(Move(s, id, Down)) == (if k + 1 == |p| then p else p[..k] + [p[k + 1], id] + p[k + 2..])
  {
    DisplayPermutes(s);
    DistinctPermuted(Display(s), Ids(s));
    FoundAt(Display(s), id, k);
    MoveDisplays(s, id, Up);
    MoveDisplays(s, id, Down);
    if k > 0 {
      NeighboursSwap(Display(s), k - 1);
      SwapSymmetric(Display(s), k, k - 1);
    }
    if k + 1 < |s| {
      NeighboursSwap(Display(s), k);
    }
  }

  lemma NeighboursSwap<T>(p: seq<T>, k: nat)
    requires k + 1 < |p|
    ensures Swap(p, k, k + 1) == p[..k] + [p[k + 1], p[k]] + p[k + 2..]
  {
  }

  // ---------------------------------------------------------------- moves only permute

  lemma SwappedPermutes(s: seq<UseCase>, i: nat, j: nat)
    requires i < |s| && j < |s|
    ensures multiset(Project(Bare, Swapped(s, i, j))) == multiset(Project(Bare, s))
    ensures multiset(Ids(Swapped(s, i, j))) == multiset(Ids(s))
  {
    SwappedBare(s, i, j);
    SwapPermutes(Project(Bare, s), i, j);
    SwappedIds(s, i, j);
    SwapPermutes(Ids(s), i, j);
  }

  /** A move changes nothing but the sequence and the orders of the entries. */
  lemma MovePermutes(s: seq<UseCase>, id: Id, direction: Direction)
    ensures multiset(Project(Bare, Move(s, id, direction))) == multiset(Project(Bare, s))
    ensures multiset(Ids(Move(s, id, direction))) == multiset(Ids(s))
  {
    var sorted := SortUseCasesByOrder(s);
    SortPermutes(Bare, s);
    DisplayPermutes(s);
    if CanMove(s, id, direction) {
      SwappedPermutes(sorted, FindIndex(Display(s), id), Slot(Display(s), id, direction).value);
    }
  }

  /** What the schema asks of the ids and orders of the use cases. */
  ghost predicate Accepted(s: seq<UseCase>) {
    Distinct(Ids(s)) && Distinct(Orders(s)) && forall i :: 0 <= i < |s| ==> s[i].order >= 1
  }

  lemma SortAccepted(s: seq<UseCase>)
    ensures Accepted(SortUseCasesByOrder(s)) <==> Accepted(s)
  {
    var t := SortUseCasesByOrder(s);
    DisplayPermutes(s);
    DistinctPermuted(Display(s), Ids(s));
    SortPermutes(OrderOf, s);
    assert Orders(s) == Project(OrderOf, s) && Orders(t) == Project(OrderOf, t);
    DistinctPermuted(Orders(t), Orders(s));
    PositiveOrders(s);
    PositiveOrders(t);
    forall o ensures o in Orders(s) <==> o in Orders(t) {
      assert o in multiset(Orders(s)) <==> o in multiset(Orders(t));
    }
  }

  function OrderOf(u: UseCase): int {
    u.order
  }

  lemma PositiveOrders(s: seq<UseCase>)
    ensures (forall i :: 0 <= i < |s| ==> s[i].order >= 1) <==> (forall o :: o in Orders(s) ==> o >= 1)
  {
    forall i | 0 <= i < |s|
      ensures s[i].order in Orders(s)
    {
      assert Orders(s)[i] == s[i].order;
    }
  }

  /**
    The result of a move is accepted exactly when the ids differ and, for a move that goes nowhere,
    the orders were already acceptable: an effective move repairs colliding orders.
   */
  lemma MoveAcceptedIff(s: seq<UseCase>, id: Id, direction: Direction)
    ensures Accepted(Move(s, id, direction)) <==>
      Distinct(Ids(s)) && (CanMove(s, id, direction) || Accepted(s))
  {
    SortAccepted(s);
    MovePermutes(s, id, direction);
    DistinctPermuted(Ids(Move(s, id, direction)), Ids(s));
  }

  /** A sequence of moves. */
  function Run(s: seq<UseCase>, script: seq<(Id, Direction)>): seq<UseCase>
    decreases |script|
  {
    if script == [] then s else Run(Move(s, script[0].0, script[0].1), script[1..])
  }

  /** Acceptance survives any sequence of moves, and so do the entries themselves. */
  lemma {:induction false} RunKeepsMenu(s: seq<UseCase>, script: seq<(Id, Direction)>)
    ensures Accepted(s) ==> Accepted(Run(s, script))
    ensures multiset(Project(Bare, Run(s, script))) == multiset(Project(Bare, s))
    decreases |script|
  {
    if script != [] {
      var (id, direction) := script[0];
      MoveAcceptedIff(s, id, direction);
      MovePermutes(s, id, direction);
      RunKeepsMenu(Move(s, id, direction), script[1..]);
    }
  }

  // ---------------------------------------------------------------- every order is reachable

  /** How many of rest the target sequence puts before x. */
  function Behind(x: Id, rest: seq<Id>, t: seq<Id>): nat {
    if rest == [] then 0
    else Behind(x, rest[1..], t) + if FindIndex(t, rest[0]) < FindIndex(t, x) then 1 else 0
  }

  /** The pairs of p that the target sequence has the other way round. */
  function Inversions(p: seq<Id>, t: seq<Id>): nat {
    if p == [] then 0 else Behind(p[0], p[1..], t) + Inversions(p[1..], t)
  }

  lemma {:induction false} BehindSwap(x: Id, rest: seq<Id>, t: seq<Id>, i: nat)
    requires i + 1 < |rest|
    ensures Behind(x, Swap(rest, i, i + 1), t) == Behind(x, rest, t)
  {
    var r := Swap(rest, i, i + 1);
    if i == 0 {
      assert r[1..][1..] == rest[1..][1..];
    } else {
      assert r[1..] == Swap(rest[1..], i - 1, i);
      BehindSwap(x, rest[1..], t, i - 1);
    }
  }

  /** Exchanging neighbours turns round that pair and no other. */
  lemma {:induction false} InversionsSwap(p: seq<Id>, t: seq<Id>, i: nat)
    requires i + 1 < |p|
    ensures Inversions(Swap(p, i, i + 1), t) + (if FindIndex(t, p[i + 1]) < FindIndex(t, p[i]) then 1 else 0)
         == Inversions(p, t) + (if FindIndex(t, p[i]) < FindIndex(t, p[i + 1]) then 1 else 0)
  {
    var r := Swap(p, i, i + 1);
    if i == 0 {
      assert r[1..][1..] == p[1..][1..];
    } else {
      assert r[1..] == Swap(p[1..], i - 1, i);
      BehindSwap(p[0], p[1..], t, i - 1);
      InversionsSwap(p[1..], t, i - 1);
    }
  }

  lemma {:induction false} BehindBound(x: Id, rest: seq<Id>, t: seq<Id>)
    ensures Behind(x, rest, t) <= |rest|
  {
    if rest != [] {
      BehindBound(x, rest[1..], t);
    }
  }

  lemma {:induction false} InversionsBound(p: seq<Id>, t: seq<Id>)
    ensures 2 * Inversions(p, t) <= |p| * (|p| - 1)
  {
    if p != [] {
      BehindBound(p[0], p[1..], t);
      InversionsBound(p[1..], t);
      var n := |p|;
      assert n * (n - 1) == (n - 1) * (n - 2) + 2 * (n - 1);
    }
  }

  lemma SwapSymmetric<T>(s: seq<T>, i: nat, j: nat)
    requires i < |s| && j < |s|
    ensures Swap(s, i, j) == Swap(s, j, i)
  {
  }

  /** A move turns round at most one pair. */
  lemma MoveChangesOnePair(p: seq<Id>, t: seq<Id>, id: Id, direction: Direction)
    ensures Inversions(p, t) <= Inversions(MoveIds(p, id, direction), t) + 1
  {
    if Slot(p, id, direction).Some? {
      var idx, target := FindIndex(p, id), Slot(p, id, direction).value;
      SwapSymmetric(p, idx, target);
      InversionsSwap(p, t, if idx < target then idx else target);
    }
  }

  function RunIds(p: seq<Id>, script: seq<(Id, Direction)>): seq<Id>
    decreases |script|
  {
    if script == [] then p else RunIds(MoveIds(p, script[0].0, script[0].1), script[1..])
  }

  lemma {:induction false} RunDisplays(s: seq<UseCase>, script: seq<(Id, Direction)>)
    ensures Display(Run(s, script)) == RunIds(Display(s), script)
    decreases |script|
  {
    if script != [] {
      MoveDisplays(s, script[0].0, script[0].1);
      RunDisplays(Move(s, script[0].0, script[0].1), script[1..]);
    }
  }

  lemma {:induction false} MovesNeeded(p: seq<Id>, t: seq<Id>, script: seq<(Id, Direction)>)
    ensures Inversions(p, t) <= Inversions(RunIds(p, script), t) + |script|
    decreases |script|
  {
    if script != [] {
      MoveChangesOnePair(p, t, script[0].0, script[0].1);
      MovesNeeded(MoveIds(p, script[0].0, script[0].1), t, script[1..]);
    }
  }

  lemma {:induction false} NothingBehind(x: Id, rest: seq<Id>, t: seq<Id>)
    requires forall i :: 0 <= i < |rest| ==> FindIndex(t, x) < FindIndex(t, rest[i])
    ensures Behind(x, rest, t) == 0
  {
    if rest != [] {
      assert FindIndex(t, x) < FindIndex(t, rest[0]);
      NothingBehind(x, rest[1..], t);
    }
  }

  ghost predicate InOrder(p: seq<Id>, t: seq<Id>) {
    forall i, j :: 0 <= i < j < |p| ==> FindIndex(t, p[i]) < FindIndex(t, p[j])
  }

  lemma {:induction false} InOrderHasNone(p: seq<Id>, t: seq<Id>)
    requires InOrder(p, t)
    ensures Inversions(p, t) == 0
  {
    if p != [] {
      NothingBehind(p[0], p[1..], t);
      InOrderHasNone(p[1..], t);
    }
  }

  /** Neighbours in the target's sequence; every id of p is in t. */
  ghost predicate Ascending(p: seq<Id>, t: seq<Id>) {
    forall k :: 0 < k < |p| ==> FindIndex(t, p[k - 1]) <= FindIndex(t, p[k])
  }

  ghost predicate AllIn(p: seq<Id>, t: seq<Id>) {
    forall i :: 0 <= i < |p| ==> p[i] in t
  }

  lemma PermutedIsIn(p: seq<Id>, t: seq<Id>)
    requires multiset(p) == multiset(t)
    ensures AllIn(p, t) && |p| == |t|
  {
    assert |p| == |multiset(p)| && |t| == |multiset(t)|;
    forall i | 0 <= i < |p|
      ensures p[i] in t
    {
      assert p[i] in multiset(p);
    }
  }

  lemma {:induction false} AscendingPair(p: seq<Id>, t: seq<Id>, i: nat, j: nat)
    requires Distinct(p) && AllIn(p, t) && Ascending(p, t) && i < j < |p|
    ensures FindIndex(t, p[i]) < FindIndex(t, p[j])
    decreases j
  {
    if i < j - 1 {
      AscendingPair(p, t, i, j - 1);
    }
    assert t[FindIndex(t, p[j - 1])] == p[j - 1] && t[FindIndex(t, p[j])] == p[j];
  }

  lemma AscendingIsInOrder(p: seq<Id>, t: seq<Id>)
    requires Distinct(p) && AllIn(p, t) && Ascending(p, t)
    ensures InOrder(p, t)
  {
    forall i, j | 0 <= i < j < |p|
      ensures FindIndex(t, p[i]) < FindIndex(t, p[j])
    {
      AscendingPair(p, t, i, j);
    }
  }

  lemma AscendingHasNone(p: seq<Id>, t: seq<Id>)
    requires Distinct(p) && AllIn(p, t) && Ascending(p, t)
    ensures Inversions(p, t) == 0
  {
    AscendingIsInOrder(p, t);
    InOrderHasNone(p, t);
  }

  /** A sequence that is not in order has neighbours the wrong way round. */
  lemma {:induction false} WrongNeighbours(p: seq<Id>, t: seq<Id>) returns (k: nat)
    requires Distinct(p) && AllIn(p, t) && Inversions(p, t) > 0
    ensures k + 1 < |p| && FindIndex(t, p[k + 1]) < FindIndex(t, p[k])
  {
    hide Inversions, FindIndex, Distinct, AllIn;
    if Ascending(p, t) {
      AscendingHasNone(p, t);
    }
    var j :| 0 < j < |p| && FindIndex(t, p[j - 1]) > FindIndex(t, p[j]);
    k := j - 1;
  }

  lemma NoneIsAscending(p: seq<Id>, t: seq<Id>)
    requires Inversions(p, t) == 0
    ensures Ascending(p, t)
  {
    forall k | 0 < k < |p|
      ensures FindIndex(t, p[k - 1]) <= FindIndex(t, p[k])
    {
      InversionsSwap(p, t, k - 1);
    }
  }

  lemma {:induction false} PositionBounds(p: seq<Id>, t: seq<Id>, i: nat)
    requires InOrder(p, t) && AllIn(p, t) && i < |p|
    ensures FindIndex(t, p[i]) >= i
    decreases i
  {
    if i > 0 {
      PositionBounds(p, t, i - 1);
    } else {
      assert p[0] in t;
    }
  }

  lemma {:induction false} PositionBoundsAbove(p: seq<Id>, t: seq<Id>, i: nat)
    requires InOrder(p, t) && AllIn(p, t) && i < |p| == |t|
    ensures FindIndex(t, p[i]) <= i
    decreases |p| - i
  {
    if i + 1 < |p| {
      PositionBoundsAbove(p, t, i + 1);
    }
  }

  /** Without inversions the target is reached. */
  lemma NoneIsTarget(p: seq<Id>, t: seq<Id>)
    requires Distinct(p) && multiset(p) == multiset(t) && Inversions(p, t) == 0
    ensures p == t
  {
    PermutedIsIn(p, t);
    NoneIsAscending(p, t);
    AscendingIsInOrder(p, t);
    forall i | 0 <= i < |p|
      ensures p[i] == t[i]
    {
      PositionBounds(p, t, i);
      PositionBoundsAbove(p, t, i);
    }
  }

  lemma TargetHasNone(t: seq<Id>)
    requires Distinct(t)
    ensures Inversions(t, t) == 0
  {
    forall i | 0 <= i < |t|
      ensures FindIndex(t, t[i]) == i
    {
      FoundAt(t, t[i], i);
    }
    InOrderHasNone(t, t);
  }

  /** Moving the lower of two wrong neighbours up removes one inversion. */
  lemma MoveUpHelps(p: seq<Id>, t: seq<Id>, k: nat)
    requires Distinct(p) && k + 1 < |p| && FindIndex(t, p[k + 1]) < FindIndex(t, p[k])
    ensures MoveIds(p, p[k + 1], Up) == Swap(p, k, k + 1)
    ensures Inversions(Swap(p, k, k + 1), t) == Inversions(p, t) - 1
  {
    FoundAt(p, p[k + 1], k + 1);
    SwapSymmetric(p, k, k + 1);
    InversionsSwap(p, t, k);
  }

  lemma {:induction false} Reach(p: seq<Id>, t: seq<Id>) returns (script: seq<(Id, Direction)>)
    requires Distinct(p) && multiset(p) == multiset(t)
    ensures RunIds(p, script) == t && |script| == Inversions(p, t)
    decreases Inversions(p, t)
  {
    if Inversions(p, t) == 0 {
      NoneIsTarget(p, t);
      script := [];
    } else {
      PermutedIsIn(p, t);
      var k := WrongNeighbours(p, t);
      MoveUpHelps(p, t, k);
      DistinctSwap(p, k, k + 1);
      SwapPermutes(p, k, k + 1);
      var rest := Reach(Swap(p, k, k + 1), t);
      script := [(p[k + 1], Up)] + rest;
      assert script[1..] == rest;
    }
  }

  ghost predicate LeadsTo(s: seq<UseCase>, script: seq<(Id, Direction)>, t: seq<Id>) {
    Display(Run(s, script)) == t
  }

  /**
    Any order of the N entries can be reached by moves: in exactly as many as there are pairs to
    turn round, in no fewer, and so in at most N(N-1)/2.
   */
  lemma EveryOrderIsReachable(s: seq<UseCase>, t: seq<Id>)
    requires Distinct(Ids(s)) && multiset(t) == multiset(Ids(s))
    ensures exists script :: LeadsTo(s, script, t) && |script| == Inversions(Display(s), t)
    ensures forall script :: LeadsTo(s, script, t) ==> |script| >= Inversions(Display(s), t)
    ensures 2 * Inversions(Display(s), t) <= |s| * (|s| - 1)
  {
    var p := Display(s);
    DisplayPermutes(s);
    DistinctPermuted(p, Ids(s));
    DistinctPermuted(t, Ids(s));
    var script := Reach(p, t);
    RunDisplays(s, script);
    assert LeadsTo(s, script, t);
    forall other | LeadsTo(s, other, t)
      ensures |other| >= Inversions(p, t)
    {
      RunDisplays(s, other);
      MovesNeeded(p, t, other);
      TargetHasNone(t);
    }
    InversionsBound(p, t);
  }
}
