/**
 The live grid: a list of services kept sorted by project and service, where an update
 replaces the service of the same name. `atMost` is `localeCompare(a, b) <= 0`, any total
 preorder on strings.
 */
module LiveState {
  import opened Basics

  /** `rest` stands for the fields that neither sorting nor updating looks at. */
  datatype Service = Service(name: string, project: string, service: string, rest: string)

  type Collation = (string, string) -> bool

  ghost predicate TotalPreorder(atMost: Collation) {
    && (forall a, b :: atMost(a, b) || atMost(b, a))
    && (forall a, b, c :: atMost(a, b) && atMost(b, c) ==> atMost(a, c))
  }

  /** The comparator is not positive: by project, and by service when the projects compare equal. */
  predicate Before(atMost: Collation, a: Service, b: Service) {
    if atMost(a.project, b.project) && atMost(b.project, a.project) then atMost(a.service, b.service)
    else atMost(a.project, b.project)
  }

  /** Puts `x` behind everything that may stand before it, as a stable sort does. */
  function Insert(atMost: Collation, sorted: seq<Service>, x: Service): seq<Service> {
    if sorted == [] || Before(atMost, sorted[|sorted| - 1], x) then sorted + [x]
    else Insert(atMost, sorted[..|sorted| - 1], x) + [sorted[|sorted| - 1]]
  }

  function SortServices(atMost: Collation, services: seq<Service>): seq<Service> {
    if services == [] then []
    else Insert(atMost, SortServices(atMost, services[..|services| - 1]), services[|services| - 1])
  }

  function Others(services: seq<Service>, name: string): seq<Service> {
    if services == [] then []
    else
      var s := services[|services| - 1];
      Others(services[..|services| - 1], name) + if s.name != name then [s] else []
  }

  function ApplyUpdate(atMost: Collation, services: seq<Service>, update: Service): seq<Service> {
    SortServices(atMost, Others(services, update.name) + [update])
  }

  /** The grid after a snapshot and the updates that follow it. */
  function ApplyAll(atMost: Collation, snapshot: seq<Service>, updates: seq<Service>): seq<Service>
    decreases |updates|
  {
    if updates == [] then SortServices(atMost, snapshot)
    else ApplyUpdate(atMost, ApplyAll(atMost, snapshot, updates[..|updates| - 1]), updates[|updates| - 1])
  }

  // ----- sorting

  ghost predicate Sorted(atMost: Collation, services: seq<Service>) {
    forall i, j | 0 <= i <= j < |services| :: Before(atMost, services[i], services[j])
  }

  lemma BeforeIsTotal(atMost: Collation, a: Service, b: Service, c: Service)
    requires TotalPreorder(atMost)
    ensures Before(atMost, a, b) || Before(atMost, b, a)
    ensures Before(atMost, a, b) && Before(atMost, b, c) ==> Before(atMost, a, c)
  {
  }

  lemma {:induction false} InsertPermutes(atMost: Collation, sorted: seq<Service>, x: Service)
    ensures multiset(Insert(atMost, sorted, x)) == multiset(sorted) + multiset{x}
    decreases |sorted|
  {
    if sorted != [] {
      var init, last := sorted[..|sorted| - 1], sorted[|sorted| - 1];
      assert sorted == init + [last];
      if !Before(atMost, last, x) {
        InsertPermutes(atMost, init, x);
      }
    }
  }

  lemma {:induction false} SortPermutes(atMost: Collation, services: seq<Service>)
    ensures multiset(SortServices(atMost, services)) == multiset(services)
    decreases |services|
  {
    if services != [] {
      var init, last := services[..|services| - 1], services[|services| - 1];
      assert services == init + [last];
      SortPermutes(atMost, init);
      InsertPermutes(atMost, SortServices(atMost, init), last);
    }
  }

  ghost predicate AllBefore(atMost: Collation, services: seq<Service>, x: Service) {
    forall s <- services :: Before(atMost, s, x)
  }

  lemma SnocSorted(atMost: Collation, sorted: seq<Service>, x: Service)
    requires TotalPreorder(atMost) && Sorted(atMost, sorted) && AllBefore(atMost, sorted, x)
    ensures Sorted(atMost, sorted + [x])
  {
    BeforeIsTotal(atMost, x, x, x);
    forall i | 0 <= i < |sorted| ensures Before(atMost, sorted[i], x) {
      assert sorted[i] in sorted;
    }
  }

  lemma {:induction false} InsertSorts(atMost: Collation, sorted: seq<Service>, x: Service)
    requires TotalPreorder(atMost) && Sorted(atMost, sorted)
    ensures Sorted(atMost, Insert(atMost, sorted, x))
    ensures forall s <- Insert(atMost, sorted, x) :: s == x || s in sorted
    decreases |sorted|
  {
    if sorted == [] {
      SnocSorted(atMost, sorted, x);
    } else {
      var init, last := sorted[..|sorted| - 1], sorted[|sorted| - 1];
      if Before(atMost, last, x) {
        forall s <- sorted ensures Before(atMost, s, x) {
          var i :| 0 <= i < |sorted| && sorted[i] == s;
          BeforeIsTotal(atMost, s, last, x);
        }
        SnocSorted(atMost, sorted, x);
      } else {
        InsertSorts(atMost, init, x);
        BeforeIsTotal(atMost, last, x, x);
        forall s <- Insert(atMost, init, x) ensures Before(atMost, s, last) {
          if s != x {
            var i :| 0 <= i < |init| && init[i] == s;
            assert sorted[i] == s;
          }
        }
        SnocSorted(atMost, Insert(atMost, init, x), last);
      }
    }
  }

  lemma {:induction false} SortSorts(atMost: Collation, services: seq<Service>)
    requires TotalPreorder(atMost)
    ensures Sorted(atMost, SortServices(atMost, services))
    decreases |services|
  {
    if services != [] {
      SortSorts(atMost, services[..|services| - 1]);
      InsertSorts(atMost, SortServices(atMost, services[..|services| - 1]), services[|services| - 1]);
    }
  }

  // ----- last writer wins

  /** Each name occurs once. */
  ghost predicate DistinctNames(services: seq<Service>) {
    forall i, j | 0 <= i < j < |services| :: services[i].name != services[j].name
  }

  lemma DistinctSnoc(services: seq<Service>, x: Service)
    requires DistinctNames(services) && forall s <- services :: s.name != x.name
    ensures DistinctNames(services + [x])
  {
  }

  lemma {:induction false} InsertKeepsDistinct(atMost: Collation, sorted: seq<Service>, x: Service)
    requires DistinctNames(sorted) && forall s <- sorted :: s.name != x.name
    ensures DistinctNames(Insert(atMost, sorted, x))
    ensures forall s :: s in Insert(atMost, sorted, x) <==> s == x || s in sorted
    decreases |sorted|
  {
    if sorted != [] {
      var init, last := sorted[..|sorted| - 1], sorted[|sorted| - 1];
      assert forall s :: s in sorted <==> s in init || s == last;
      if !Before(atMost, last, x) {
        InsertKeepsDistinct(atMost, init, x);
        DistinctSnoc(Insert(atMost, init, x), last);
      } else {
        DistinctSnoc(sorted, x);
      }
    }
  }

  lemma {:induction false} SortKeepsDistinct(atMost: Collation, services: seq<Service>)
    requires DistinctNames(services)
    ensures DistinctNames(SortServices(atMost, services))
    ensures forall s :: s in SortServices(atMost, services) <==> s in services
    decreases |services|
  {
    if services != [] {
      var init, last := services[..|services| - 1], services[|services| - 1];
      assert forall s :: s in services <==> s in init || s == last;
      SortKeepsDistinct(atMost, init);
      InsertKeepsDistinct(atMost, SortServices(atMost, init), last);
    }
  }

  lemma {:induction false} OthersAreOthers(services: seq<Service>, name: string)
    ensures forall s :: s in Others(services, name) <==> s in services && s.name != name
    ensures DistinctNames(services) ==> DistinctNames(Others(services, name))
    decreases |services|
  {
    if services != [] {
      var init, last := services[..|services| - 1], services[|services| - 1];
      OthersAreOthers(init, name);
      forall s ensures s in Others(services, name) <==> s in services && s.name != name {
        assert s in services <==> s in init || s == last;
      }
      if DistinctNames(services) {
        forall s <- Others(init, name) ensures s.name != last.name {
          assert s in init;
        }
      }
    }
  }

  /** An update replaces the service of its name, leaves every other one, and sorts. */
  lemma UpdateReplaces(atMost: Collation, services: seq<Service>, update: Service)
    requires TotalPreorder(atMost) && DistinctNames(services)
    ensures var after := ApplyUpdate(atMost, services, update);
            && Sorted(atMost, after)
            && DistinctNames(after)
            && forall s :: s in after <==> s == update || (s in services && s.name != update.name)
  {
    OthersAreOthers(services, update.name);
    DistinctSnoc(Others(services, update.name), update);
    SortSorts(atMost, Others(services, update.name) + [update]);
    SortKeepsDistinct(atMost, Others(services, update.name) + [update]);
  }

  predicate SameRank(atMost: Collation, a: string, b: string) {
    atMost(a, b) && atMost(b, a)
  }

  /** By project, and within a project by service. */
  ghost predicate ByProjectThenService(atMost: Collation, services: seq<Service>) {
    forall i, j | 0 <= i < j < |services| ::
      && atMost(services[i].project, services[j].project)
      && (SameRank(atMost, services[i].project, services[j].project) ==>
            atMost(services[i].service, services[j].service))
  }

  lemma SortedIsByProject(atMost: Collation, services: seq<Service>)
    requires TotalPreorder(atMost) && Sorted(atMost, services)
    ensures ByProjectThenService(atMost, services)
  {
    forall i, j | 0 <= i < j < |services|
      ensures atMost(services[i].project, services[j].project)
      ensures SameRank(atMost, services[i].project, services[j].project) ==>
                atMost(services[i].service, services[j].service)
    {
      assert Before(atMost, services[i], services[j]);
    }
  }

  /** The newest update of a name. */
  function Latest(updates: seq<Service>, name: string): Option<Service> {
    if updates == [] then None
    else if updates[|updates| - 1].name == name then Some(updates[|updates| - 1])
    else Latest(updates[..|updates| - 1], name)
  }

  /**
   Last writer wins: whatever the updates, the grid holds for every name its latest
   update, or else its entry in the snapshot; names stay distinct; the list is sorted.
   */
  lemma {:induction false} LastWriterWins(atMost: Collation, snapshot: seq<Service>, updates: seq<Service>)
    requires TotalPreorder(atMost) && DistinctNames(snapshot)
    ensures var grid := ApplyAll(atMost, snapshot, updates);
            && DistinctNames(grid)
            && Sorted(atMost, grid) && ByProjectThenService(atMost, grid)
            && forall s :: s in grid <==>
                 (Latest(updates, s.name) == Some(s) || (Latest(updates, s.name) == None && s in snapshot))
    decreases |updates|
  {
    if updates == [] {
      SortSorts(atMost, snapshot);
      SortKeepsDistinct(atMost, snapshot);
    } else {
      var init, last := updates[..|updates| - 1], updates[|updates| - 1];
      LastWriterWins(atMost, snapshot, init);
      UpdateReplaces(atMost, ApplyAll(atMost, snapshot, init), last);
    }
    SortedIsByProject(atMost, ApplyAll(atMost, snapshot, updates));
  }

  // ----- order of independent updates

  /** Sorting a sorted list leaves it alone. */
  lemma {:induction false} SortOfSorted(atMost: Collation, sorted: seq<Service>)
    requires Sorted(atMost, sorted)
    ensures SortServices(atMost, sorted) == sorted
    decreases |sorted|
  {
    if sorted != [] {
      SortOfSorted(atMost, sorted[..|sorted| - 1]);
    }
  }

  lemma InsertLast(atMost: Collation, init: seq<Service>, last: Service, x: Service)
    ensures Insert(atMost, init + [last], x)
         == if Before(atMost, last, x) then init + [last] + [x] else Insert(atMost, init, x) + [last]
  {
    assert (init + [last])[..|init|] == init;
  }

  lemma SortSnoc(atMost: Collation, services: seq<Service>, x: Service)
    ensures SortServices(atMost, services + [x]) == Insert(atMost, SortServices(atMost, services), x)
  {
    assert (services + [x])[..|services|] == services;
  }

  lemma OthersSnoc(services: seq<Service>, x: Service, name: string)
    ensures Others(services + [x], name)
         == if x.name != name then Others(services, name) + [x] else Others(services, name)
  {
    assert (services + [x])[..|services|] == services;
    assert Others(services, name) + [] == Others(services, name);
  }

  /** Removing a name commutes with stable insertion. */
  lemma {:induction false} OthersOfInsert(atMost: Collation, sorted: seq<Service>, x: Service, name: string)
    requires TotalPreorder(atMost) && Sorted(atMost, sorted)
    ensures Others(Insert(atMost, sorted, x), name)
         == if x.name != name then Insert(atMost, Others(sorted, name), x) else Others(sorted, name)
    decreases |sorted|
  {
    if sorted == [] || Before(atMost, sorted[|sorted| - 1], x) {
      OthersSnoc(sorted, x, name);
      OthersBefore(atMost, sorted, x, name);
    } else {
      var init, last := sorted[..|sorted| - 1], sorted[|sorted| - 1];
      assert sorted == init + [last];
      OthersOfInsert(atMost, init, x, name);
      OthersSnoc(init, last, name);
      OthersSnoc(Insert(atMost, init, x), last, name);
      InsertLast(atMost, Others(init, name), last, x);
    }
  }

  /** What may stand behind the last element may stand behind the last one kept. */
  lemma OthersBefore(atMost: Collation, sorted: seq<Service>, x: Service, name: string)
    requires TotalPreorder(atMost) && Sorted(atMost, sorted)
    requires sorted == [] || Before(atMost, sorted[|sorted| - 1], x)
    ensures Insert(atMost, Others(sorted, name), x) == Others(sorted, name) + [x]
  {
    var others := Others(sorted, name);
    if others != [] {
      var s := others[|others| - 1];
      OthersAreOthers(sorted, name);
      assert s in others;
      var i :| 0 <= i < |sorted| && sorted[i] == s;
      BeforeIsTotal(atMost, s, sorted[|sorted| - 1], x);
    }
  }

  lemma {:induction false} OthersOfSort(atMost: Collation, services: seq<Service>, name: string)
    requires TotalPreorder(atMost)
    ensures Others(SortServices(atMost, services), name) == SortServices(atMost, Others(services, name))
    decreases |services|
  {
    if services != [] {
      var init, last := services[..|services| - 1], services[|services| - 1];
      assert services == init + [last];
      OthersOfSort(atMost, init, name);
      SortSorts(atMost, init);
      SortSnoc(atMost, init, last);
      OthersSnoc(init, last, name);
      OthersOfInsert(atMost, SortServices(atMost, init), last, name);
      SortSnoc(atMost, Others(init, name), last);
    }
  }

  lemma {:induction false} OthersTwice(services: seq<Service>, a: string, b: string)
    ensures Others(Others(services, a), b) == Others(Others(services, b), a)
    decreases |services|
  {
    if services != [] {
      var init, last := services[..|services| - 1], services[|services| - 1];
      assert services == init + [last];
      OthersTwice(init, a, b);
      OthersSnoc(init, last, a);
      OthersSnoc(init, last, b);
      OthersSnoc(Others(init, a), last, b);
      OthersSnoc(Others(init, b), last, a);
    }
  }

  /** Two updates of different names are two insertions into the sorted rest. */
  lemma TwoUpdates(atMost: Collation, services: seq<Service>, u: Service, v: Service)
    requires TotalPreorder(atMost) && u.name != v.name
    ensures var rest := SortServices(atMost, Others(Others(services, u.name), v.name));
            ApplyUpdate(atMost, ApplyUpdate(atMost, services, u), v) == Insert(atMost, Insert(atMost, rest, u), v)
  {
    var kept := Others(services, u.name) + [u];
    var once := SortServices(atMost, kept);
    SortSorts(atMost, kept);
    OthersOfSort(atMost, once, v.name);
    SortOfSorted(atMost, once);
    OthersOfSort(atMost, kept, v.name);
    OthersSnoc(Others(services, u.name), u, v.name);
    SortSnoc(atMost, Others(Others(services, u.name), v.name), u);
    SortSnoc(atMost, Others(once, v.name), v);
  }

  /** The services compare equal. */
  predicate Tied(atMost: Collation, u: Service, v: Service) {
    Before(atMost, u, v) && Before(atMost, v, u)
  }

  /** Insertions of two services behind the whole list. */
  lemma InsertsAtEnd(atMost: Collation, list: seq<Service>, u: Service, v: Service)
    requires TotalPreorder(atMost)
    requires list == [] || (Before(atMost, list[|list| - 1], u) && Before(atMost, list[|list| - 1], v))
    ensures Insert(atMost, Insert(atMost, list, u), v)
         == list + if Before(atMost, u, v) then [u, v] else [v, u]
  {
    InsertLast(atMost, list, u, v);
    assert list + [u] + [v] == list + [u, v] && list + [v] + [u] == list + [v, u];
  }

  /** One belongs behind the whole list, the other inside it. */
  lemma InsertsApart(atMost: Collation, init: seq<Service>, last: Service, u: Service, v: Service)
    requires TotalPreorder(atMost) && Before(atMost, last, u) && !Before(atMost, last, v)
    ensures var list := init + [last];
            && !Before(atMost, u, v)
            && Insert(atMost, Insert(atMost, list, u), v) == Insert(atMost, init, v) + [last] + [u]
            && Insert(atMost, Insert(atMost, list, v), u) == Insert(atMost, init, v) + [last] + [u]
  {
    BeforeIsTotal(atMost, last, u, v);
    InsertLast(atMost, init, last, u);
    InsertLast(atMost, init, last, v);
    InsertLast(atMost, init + [last], u, v);
    InsertLast(atMost, Insert(atMost, init, v), last, u);
  }

  lemma {:induction false} InsertsCommuteIff(atMost: Collation, list: seq<Service>, u: Service, v: Service)
    requires TotalPreorder(atMost) && u != v
    ensures Insert(atMost, Insert(atMost, list, u), v) == Insert(atMost, Insert(atMost, list, v), u)
       <==> !Tied(atMost, u, v)
    decreases |list|
  {
    BeforeIsTotal(atMost, u, v, v);
    if list == [] || (Before(atMost, list[|list| - 1], u) && Before(atMost, list[|list| - 1], v)) {
      InsertsAtEnd(atMost, list, u, v);
      InsertsAtEnd(atMost, list, v, u);
      assert (list + [u, v])[|list|] == u && (list + [v, u])[|list|] == v;
    } else {
      var init, last := list[..|list| - 1], list[|list| - 1];
      assert list == init + [last];
      if Before(atMost, last, u) {
        InsertsApart(atMost, init, last, u, v);
      } else if Before(atMost, last, v) {
        InsertsApart(atMost, init, last, v, u);
      } else {
        InsertsCommuteIff(atMost, init, u, v);
        InsertLast(atMost, Insert(atMost, init, u), last, v);
        InsertLast(atMost, Insert(atMost, init, v), last, u);
        SnocEqual(Insert(atMost, Insert(atMost, init, u), v), Insert(atMost, Insert(atMost, init, v), u), last);
      }
    }
  }

  lemma SnocEqual(a: seq<Service>, b: seq<Service>, last: Service)
    ensures a + [last] == b + [last] <==> a == b
  {
    assert (a + [last])[..|a + [last]| - 1] == a && (b + [last])[..|b + [last]| - 1] == b;
  }

  /**
   Updates of different names commute, in any list and whatever else compares equal in it,
   iff the two services do not compare equal.
   */
  lemma UpdatesCommuteIff(atMost: Collation, services: seq<Service>, u: Service, v: Service)
    requires TotalPreorder(atMost) && u.name != v.name
    ensures ApplyUpdate(atMost, ApplyUpdate(atMost, services, u), v)
         == ApplyUpdate(atMost, ApplyUpdate(atMost, services, v), u)
       <==> !Tied(atMost, u, v)
  {
    TwoUpdates(atMost, services, u, v);
    TwoUpdates(atMost, services, v, u);
    OthersTwice(services, u.name, v.name);
    InsertsCommuteIff(atMost, SortServices(atMost, Others(Others(services, u.name), v.name)), u, v);
  }

  /** Two replicas of one service stand in the order of their updates. */
  lemma ReplicasKeepOrder(atMost: Collation, u: Service, v: Service)
    requires TotalPreorder(atMost) && u.name != v.name
    requires u.project == v.project && u.service == v.service
    ensures ApplyUpdate(atMost, ApplyUpdate(atMost, [], u), v) == [u, v]
    ensures ApplyUpdate(atMost, ApplyUpdate(atMost, [], v), u) == [v, u]
  {
    TwoUpdates(atMost, [], u, v);
    TwoUpdates(atMost, [], v, u);
    BeforeIsTotal(atMost, u, u, u);
    InsertsAtEnd(atMost, [], u, v);
    InsertsAtEnd(atMost, [], v, u);
  }
}
