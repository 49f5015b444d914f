/** The linked list of cars on the heap. As in the source, the operations are functions over a
    possibly null list pointer; -1 (or null) reports a null argument. */
module CarList {
  import opened Data
  import opened CarSeqs

  class Node {
    var data: CarData
    var next: Node?

    constructor (d: CarData)
      ensures data == d && next == null
    {
      data := d;
      next := null;
    }
  }

  class List {
    var size: int
    var head: Node?
    ghost var nodes: seq<Node>

    /** The nodes form one acyclic chain of `size` nodes, and no two nodes share a record. */
    ghost predicate Valid()
      reads this, nodes
    {
      && size == |nodes|
      && head == At(0)
      && (forall k {:trigger nodes[k].next} :: 0 <= k < |nodes| ==> nodes[k].next == At(k + 1))
      && (forall j, k :: 0 <= j < k < |nodes| ==> nodes[j] != nodes[k])
      && (forall j, k :: 0 <= j < k < |nodes| ==> nodes[j].data != nodes[k].data)
    }

    ghost function At(k: nat): Node?
      reads this
    {
      if k < |nodes| then nodes[k] else null
    }

    ghost function Cars(): (s: seq<Car>)
      reads this, nodes
      ensures |s| == |nodes|
    {
      seq(|nodes|, k requires 0 <= k < |nodes| reads this, nodes => nodes[k].data.value)
    }

    /** The records themselves, in order. */
    ghost function Records(): (rs: seq<CarData>)
      reads this, nodes
      ensures |rs| == |nodes| && Values(rs) == Cars()
    {
      seq(|nodes|, k requires 0 <= k < |nodes| reads this, nodes => nodes[k].data)
    }

    constructor ()
      ensures Valid() && nodes == [] && Cars() == []
    {
      size, head := 0, null;
      nodes := [];
    }
  }

  function Values(rs: seq<CarData>): (s: seq<Car>)
    ensures |s| == |rs|
  {
    seq(|rs|, k requires 0 <= k < |rs| => rs[k].value)
  }

  ghost function Footprint(list: List?): (r: set<object>)
    reads list
  {
    if list == null then {} else {list as object} + set n: Node | n in list.nodes :: n as object
  }

  method ListCreate() returns (list: List)
    ensures fresh(list) && list.Valid() && list.nodes == [] && list.Cars() == []
  {
    list := new List();
  }

  /** Appends a fresh copy of the car; a car that fails validation cannot be copied. */
  method ListAdd(list: List?, car: CarData?, year: int) returns (rc: int)
    requires list != null ==> list.Valid()
    modifies Footprint(list)
    ensures list != null ==> list.Valid() && fresh(Footprint(list) - old(Footprint(list)))
    ensures rc == if list != null && car != null && Validated(year, car.value) then 0 else -1
    ensures rc == 0 ==> list.Cars() == old(list.Cars()) + [car.value]
    ensures rc == 0 ==>
      var n := |old(list.nodes)|;
      && |list.nodes| == n + 1 && list.nodes[..n] == old(list.nodes)
      && fresh(list.nodes[n]) && fresh(list.nodes[n].data)
      && forall k :: 0 <= k < n ==> list.nodes[k].data == old(list.nodes[k].data)
    ensures rc == -1 && list != null ==> list.nodes == old(list.nodes) && list.Cars() == old(list.Cars())
  {
    if list == null || car == null {
      return -1;
    }
    var copy := DataDup(year, car);
    if copy == null {
      return -1;
    }
    var node := new Node(copy);
    Append(list, node);
    return 0;
  }

  /** Walks to the last node and links the new one behind it. */
  method Append(list: List, node: Node)
    requires list.Valid() && node !in list.nodes && node.next == null
    requires forall k :: 0 <= k < |list.nodes| ==> list.nodes[k].data != node.data
    modifies list, (set n | n in list.nodes)`next
    ensures list.Valid() && list.nodes == old(list.nodes) + [node]
    ensures list.Cars() == old(list.Cars()) + [node.data.value]
  {
    if list.head == null {
      list.head := node;
    } else {
      var current := list.head;
      ghost var k := 0;
      while current.next != null
        invariant k < |list.nodes| && current == list.nodes[k]
        decreases |list.nodes| - k
      {
        current := current.next;
        k := k + 1;
      }
      assert list.nodes[k].next == list.At(k + 1);
      assert list.nodes[k] in list.nodes;
      current.next := node;
    }
    list.size := list.size + 1;
    list.nodes := list.nodes + [node];
  }

  /** Unlinks the first car of the model: node `at`, when there is one. */
  method ListRemoveByModel(list: List?, modelo: Option<string>) returns (rc: int, ghost at: nat)
    requires list != null ==> list.Valid()
    modifies Footprint(list)
    ensures list != null ==> list.Valid() && Footprint(list) <= old(Footprint(list))
    ensures rc == -1 <==> list == null || modelo.None?
    ensures list != null && modelo.Some? ==>
      && rc == (if modelo.value in Models(old(list.Cars())) then 0 else 1)
      && list.Cars() == RemoveFirst(old(list.Cars()), modelo.value)
    ensures rc == 0 ==>
      && at < |old(list.nodes)| && old(list.Cars()[at]).modelo == modelo.value
      && (forall j :: 0 <= j < at ==> old(list.Cars())[j].modelo != modelo.value)
      && list.nodes == old(list.nodes)[..at] + old(list.nodes)[at + 1..]
      && list.Records() == old(list.Records())[..at] + old(list.Records())[at + 1..]
    ensures rc != 0 && list != null ==> list.nodes == old(list.nodes) && list.Records() == old(list.Records())
  {
    at := 0;
    if list == null || modelo.None? {
      return -1, at;
    }
    ghost var was := list.Cars();
    var current := list.head;
    var prev: Node? := null;
    while current != null
      invariant at <= |list.nodes| && current == list.At(at)
      invariant prev == if at == 0 then null else list.nodes[at - 1]
      invariant forall j :: 0 <= j < at ==> was[j].modelo != modelo.value
      decreases |list.nodes| - at
    {
      if current.data.value.modelo == modelo.value {
        RemoveFirstAt(was, modelo.value, at);
        Unlink(list, prev, current, at);
        assert forall n :: n in list.nodes ==> n in old(list.nodes);
        return 0, at;
      }
      prev := current;
      current := current.next;
      at := at + 1;
    }
    RemoveNothing(was, modelo.value);
    return 1, at;
  }

  method Unlink(list: List, prev: Node?, current: Node, ghost at: nat)
    requires list.Valid() && at < |list.nodes| && current == list.nodes[at]
    requires prev == if at == 0 then null else list.nodes[at - 1]
    modifies list, (set n | n in list.nodes)`next
    ensures list.Valid()
    ensures list.nodes == old(list.nodes)[..at] + old(list.nodes)[at + 1..]
    ensures list.Records() == old(list.Records())[..at] + old(list.Records())[at + 1..]
    ensures list.Cars() == old(list.Cars())[..at] + old(list.Cars())[at + 1..]
  {
    ghost var was := list.nodes;
    ghost var rest := was[..at] + was[at + 1..];
    assert forall j :: 0 <= j < |rest| ==> rest[j] == was[if j < at then j else j + 1];
    if prev == null {
      list.head := current.next;
    } else {
      prev.next := current.next;
    }
    list.size := list.size - 1;
    list.nodes := rest;
  }

  /** A pointer to the record of the first matching node, not a copy. */
  method ListGetByMarca(list: List?, marca: int) returns (r: CarData?)
    requires list != null ==> list.Valid()
    ensures r != null <==> list != null && FirstByMarca(list.Cars(), marca).Some?
    ensures r != null ==>
      && FirstByMarca(list.Cars(), marca) == Some(r.value)
      && exists k :: 0 <= k < |list.nodes| && r == list.Records()[k] && r.value.marca == marca
                     && forall j :: 0 <= j < k ==> list.Cars()[j].marca != marca
  {
    if list == null {
      return null;
    }
    var current := list.head;
    ghost var k := 0;
    while current != null
      invariant k <= |list.nodes| && current == list.At(k)
      invariant FirstByMarca(list.Cars(), marca) == FirstByMarca(list.Cars()[k..], marca)
      invariant forall j :: 0 <= j < k ==> list.Cars()[j].marca != marca
      decreases |list.nodes| - k
    {
      if current.data.value.marca == marca {
        assert current.data == list.Records()[k];
        return current.data;
      }
      assert list.Cars()[k..][1..] == list.Cars()[k + 1..];
      current := current.next;
      k := k + 1;
    }
    return null;
  }

  /** The null-terminated array holds these very records. */
  predicate Holds(a: array<CarData?>, rs: seq<CarData>)
    reads a
  {
    && a.Length == |rs| + 1
    && a[|rs|] == null
    && forall k :: 0 <= k < |rs| ==> a[k] == rs[k]
  }

  /** The records whose car is of the year, in order. */
  function WithYear(rs: seq<CarData>, y: int): (t: seq<CarData>)
    ensures |t| <= |rs|
  {
    if rs == [] then [] else
      var last := rs[|rs| - 1];
      WithYear(rs[..|rs| - 1], y) + if last.value.ano == y then [last] else []
  }

  lemma {:induction false} WithYearValues(rs: seq<CarData>, y: int)
    ensures Values(WithYear(rs, y)) == ByYear(Values(rs), y)
  {
    hide ByYear;
    if rs == [] {
      ByYearNil(y);
    } else {
      var n := |rs| - 1;
      WithYearValues(rs[..n], y);
      ByYearStep(Values(rs), n, y);
      assert Values(rs)[..n] == Values(rs[..n]) && Values(rs)[..n + 1] == Values(rs);
    }
  }

  lemma WithYearNil(y: int)
    ensures WithYear([], y) == []
  {
  }

  lemma WithYearStep(rs: seq<CarData>, k: nat, y: int)
    requires k < |rs|
    ensures WithYear(rs[..k + 1], y) == WithYear(rs[..k], y) + if rs[k].value.ano == y then [rs[k]] else []
    ensures |WithYear(rs[..k + 1], y)| <= |WithYear(rs, y)|
  {
    assert rs[..k + 1][..k] == rs[..k];
    WithYearPrefix(rs, k + 1, y);
  }

  lemma {:induction false} WithYearPrefix(rs: seq<CarData>, k: nat, y: int)
    requires k <= |rs|
    ensures |WithYear(rs[..k], y)| <= |WithYear(rs, y)|
  {
    if k == |rs| {
      assert rs[..k] == rs;
    } else {
      WithYearPrefix(rs[..|rs| - 1], k, y);
      assert rs[..|rs| - 1][..k] == rs[..k];
    }
  }

  /** Two passes over the list: the second fills exactly the slots the first one counted. */
  method ListGetByYear(list: List?, ano: int) returns (a: array?<CarData?>)
    requires list != null ==> list.Valid()
    ensures a == null <==> list == null
    ensures a != null ==>
      && fresh(a) && Holds(a, WithYear(list.Records(), ano))
      && Values(WithYear(list.Records(), ano)) == ByYear(list.Cars(), ano)
  {
    if list == null {
      return null;
    }
    var count := CountByYear(list, ano);
    a := new CarData?[count + 1](_ => null);
    FillByYear(list, ano, a);
    WithYearValues(list.Records(), ano);
  }

  method CountByYear(list: List, ano: int) returns (count: int)
    requires list.Valid()
    ensures count == |WithYear(list.Records(), ano)|
  {
    hide WithYear;
    WithYearNil(ano);
    count := 0;
    var current := list.head;
    ghost var (rs, k) := (list.Records(), 0);
    while current != null
      invariant k <= |rs| && current == list.At(k)
      invariant count == |WithYear(rs[..k], ano)|
      decreases |rs| - k
    {
      WithYearStep(rs, k, ano);
      if current.data.value.ano == ano {
        count := count + 1;
      }
      current := current.next;
      k := k + 1;
    }
    assert rs[..k] == rs;
  }

  method FillByYear(list: List, ano: int, a: array<CarData?>)
    requires list.Valid() && a.Length == |WithYear(list.Records(), ano)| + 1
    modifies a
    ensures Holds(a, WithYear(list.Records(), ano))
  {
    hide WithYear;
    WithYearNil(ano);
    ghost var (rs, k) := (list.Records(), 0);
    var current := list.head;
    var i := 0;
    while current != null
      invariant k <= |rs| && current == list.At(k)
      invariant 0 <= i == |WithYear(rs[..k], ano)| < a.Length
      invariant forall j :: 0 <= j < i ==> a[j] == WithYear(rs[..k], ano)[j]
      decreases |rs| - k
    {
      WithYearStep(rs, k, ano);
      if current.data.value.ano == ano {
        a[i] := current.data;
        i := i + 1;
      }
      current := current.next;
      k := k + 1;
    }
    assert rs[..k] == rs;
    a[i] := null;
  }

  lemma ByYearStep(s: seq<Car>, k: nat, y: int)
    requires k < |s|
    ensures ByYear(s[..k + 1], y) == ByYear(s[..k], y) + (if s[k].ano == y then [s[k]] else [])
  {
    hide ByYear;
    assert s[..k + 1] == s[..k] + [s[k]] && [s[k]] == [s[k]] + [];
    ByYearConcat(s[..k], [s[k]], y);
    ByYearCons(s[k], [], y);
    ByYearNil(y);
  }

  /** Bubble sort by year, exchanging the records of neighbouring nodes. Only the `data` fields
      change; the number of exchanges is the number of inversions of the old list. */
  method ListOrderByYear(list: List?) returns (rc: int, ghost swaps: nat)
    requires list != null ==> list.Valid()
    modifies (if list == null then {} else set n | n in list.nodes)`data
    ensures rc == if list == null then -1 else 0
    ensures list != null ==> list.Valid()
    ensures list != null ==> list.Cars() == SortByYear(old(list.Cars()))
    ensures list != null ==> multiset(list.Records()) == old(multiset(list.Records()))
    ensures list != null ==> swaps == Inversions(old(list.Cars()))
  {
    swaps := 0;
    if list == null {
      return -1, swaps;
    }
    ghost var was := list.Cars();
    var swapped := true;
    while swapped
      invariant list.Valid()
      invariant YearEq(list.Cars(), was)
      invariant multiset(list.Records()) == old(multiset(list.Records()))
      invariant Inversions(list.Cars()) + swaps == Inversions(was)
      invariant !swapped ==> NeighboursSorted(list.Cars(), |list.nodes|)
      decreases Inversions(list.Cars()), swapped
    {
      ghost var (s, n) := (list.Cars(), 0);
      swapped, n := BubblePass(list);
      YearEqTransitive(list.Cars(), s, was);
      swaps := swaps + n;
    }
    NeighboursSuffice(list.Cars());
    SortIsStable(was);
    YearEqTransitive(list.Cars(), was, SortByYear(was));
    SortedUnique(list.Cars(), SortByYear(was));
    SortedHasNoInversions(list.Cars());
    return 0, swaps;
  }

  /** One pass of the sort. */
  method BubblePass(list: List) returns (swapped: bool, ghost swaps: nat)
    requires list.Valid()
    modifies (set n | n in list.nodes)`data
    ensures list.Valid()
    ensures YearEq(list.Cars(), old(list.Cars()))
    ensures multiset(list.Records()) == old(multiset(list.Records()))
    ensures Inversions(list.Cars()) + swaps == Inversions(old(list.Cars()))
    ensures swapped <==> swaps > 0
    ensures !swapped ==> NeighboursSorted(list.Cars(), |list.nodes|)
  {
    hide YearEq, Inversions;
    YearEqSelf(list.Cars());
    swapped, swaps := false, 0;
    ghost var was := list.Cars();
    ghost var records := multiset(list.Records());
    var current := list.head;
    ghost var k := 0;
    while current != null && current.next != null
      invariant list.Valid()
      invariant k <= |list.nodes| && current == list.At(k)
      invariant YearEq(list.Cars(), was)
      invariant multiset(list.Records()) == records
      invariant Inversions(list.Cars()) + swaps == Inversions(was)
      invariant swapped <==> swaps > 0
      invariant !swapped ==> NeighboursSorted(list.Cars(), k + 1)
      decreases |list.nodes| - k
    {
      ghost var s := list.Cars();
      if current.data.value.ano > current.next.data.value.ano {
        SwapData(list, current, current.next, k);
        YearEqTransitive(list.Cars(), s, was);
        swaps := swaps + 1;
        swapped := true;
      }
      current := current.next;
      k := k + 1;
    }
  }

  method SwapData(ghost list: List, current: Node, following: Node, ghost k: nat)
    requires list.Valid() && k + 1 < |list.nodes|
    requires current == list.nodes[k] && following == list.nodes[k + 1]
    requires current.data.value.ano > following.data.value.ano
    modifies current`data, following`data
    ensures list.Valid()
    ensures YearEq(list.Cars(), old(list.Cars()))
    ensures Inversions(list.Cars()) + 1 == Inversions(old(list.Cars()))
    ensures multiset(list.Records()) == old(multiset(list.Records()))
  {
    hide YearEq, Inversions;
    ghost var (s, rs) := (list.Cars(), list.Records());
    SwapNeighbours(s, k);
    var temp := current.data;
    current.data := following.data;
    following.data := temp;
    assert list.Records() == rs[k := rs[k + 1]][k + 1 := rs[k]];
    assert list.Cars() == SwapNext(s, k);
  }

  ghost predicate NeighboursSorted(s: seq<Car>, n: nat) {
    forall j :: 0 <= j && j + 1 < n && j + 1 < |s| ==> s[j].ano <= s[j + 1].ano
  }

  lemma NeighboursSuffice(s: seq<Car>)
    requires NeighboursSorted(s, |s|)
    ensures Sorted(s)
  {
    forall i, j | 0 <= i < j < |s| ensures s[i].ano <= s[j].ano {
      NeighboursChain(s, i, j);
    }
  }

  lemma {:induction false} NeighboursChain(s: seq<Car>, i: nat, j: nat)
    requires NeighboursSorted(s, |s|) && i < j < |s|
    ensures s[i].ano <= s[j].ano
    decreases j - i
  {
    if i + 1 < j {
      NeighboursChain(s, i + 1, j);
    }
    assert i + 1 < |s|;
  }

  lemma YearEqSelf(s: seq<Car>)
    ensures YearEq(s, s)
  {
  }

  lemma YearEqTransitive(s: seq<Car>, t: seq<Car>, u: seq<Car>)
    requires YearEq(s, t)
    requires YearEq(t, u) || YearEq(u, t)
    ensures YearEq(s, u)
  {
    forall y ensures ByYear(s, y) == ByYear(u, y) {
      assert ByYear(s, y) == ByYear(t, y) == ByYear(u, y);
    }
  }

  method ListSize(list: List?) returns (n: int)
    requires list != null ==> list.Valid()
    ensures n == if list == null then -1 else |list.Cars()|
  {
    if list == null {
      return -1;
    }
    return list.size;
  }

  /** An array of `size + 1` slots: every model in order, then the terminator. */
  method ListGetModelList(list: List?) returns (a: array?<Option<string>>)
    requires list != null ==> list.Valid()
    ensures a == null <==> list == null
    ensures a != null ==>
      && fresh(a) && a.Length == |list.nodes| + 1
      && a[|list.nodes|] == None
      && forall k :: 0 <= k < |list.nodes| ==> a[k] == Some(list.Cars()[k].modelo)
  {
    if list == null {
      return null;
    }
    a := new Option<string>[list.size + 1](_ => None);
    var current := list.head;
    var i := 0;
    while current != null
      invariant 0 <= i <= |list.nodes| && current == list.At(i)
      invariant forall k :: 0 <= k < i ==> a[k] == Some(list.Cars()[k].modelo)
      decreases |list.nodes| - i
    {
      a[i] := Some(current.data.value.modelo);
      i := i + 1;
      current := current.next;
    }
    a[i] := None;
  }

  /** Every record of the list, in order, by pointer. */
  method ListGetAll(list: List?) returns (a: array?<CarData?>)
    requires list != null ==> list.Valid()
    ensures a == null <==> list == null
    ensures a != null ==> fresh(a) && Holds(a, list.Records())
  {
    if list == null {
      return null;
    }
    a := new CarData?[list.size + 1](_ => null);
    var current := list.head;
    var i := 0;
    while current != null
      invariant 0 <= i <= |list.nodes| && current == list.At(i)
      invariant forall k :: 0 <= k < i ==> a[k] == list.Records()[k]
      decreases |list.nodes| - i
    {
      a[i] := current.data;
      i := i + 1;
      current := current.next;
    }
    a[i] := null;
  }
}
