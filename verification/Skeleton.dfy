/** The skeleton that turns messages into list operations, the server's handling of one
    request around it, and the transfer of a list to a joining server. */
module Skeleton {
  import opened Data
  import opened CarSeqs
  import opened Messages
  import opened CarList
  import Topology

  /** A message object. `Invoke` overwrites the request with its reply. */
  class MessageT {
    var opcode: int
    var cType: int
    var data: Option<Car>
    var result: int
    var models: seq<string>
    var cars: seq<Car>

    constructor (m: Message)
      ensures View() == m
    {
      opcode, cType, data, result, models, cars := m.opcode, m.cType, m.data, m.result, m.models, m.cars;
    }

    function View(): Message
      reads this
    {
      Message(opcode, cType, data, result, models, cars)
    }

    method Fail()
      modifies this`opcode, this`cType, this`result
      ensures View() == Failed(old(View()))
    {
      opcode, cType, result := OP_ERROR, CT_NONE, -1;
    }
  }

  /** Converts a null-terminated array of records: count up to the terminator, then copy. */
  method DataArrayToProtobufArray(a: array?<CarData?>, ghost rs: seq<CarData>) returns (r: array<Car>)
    requires a != null ==> |rs| < a.Length && a[|rs|] == null
    requires a != null ==> forall k :: 0 <= k < |rs| ==> a[k] == rs[k]
    ensures fresh(r) && r[..] == if a == null then [] else Values(rs)
  {
    if a == null {
      r := new Car[0];
      return;
    }
    var count := 0;
    while a[count] != null
      invariant count <= |rs|
      decreases |rs| - count
    {
      count := count + 1;
    }
    r := new Car[count];
    for i := 0 to count
      invariant r[..i] == Values(rs)[..i]
    {
      r[i] := a[i].value;
      assert r[..i + 1] == r[..i] + [Values(rs)[i]];
    }
    assert r[..] == r[..count];
  }

  method Invoke(msg: MessageT?, list: List?, year: int) returns (rc: int)
    requires list != null ==> list.Valid()
    modifies msg, Footprint(list)
    ensures list != null ==> list.Valid() && fresh(Footprint(list) - old(Footprint(list)))
    ensures msg != null && list != null ==>
      && msg.View() == Reply(year, old(msg.View()), old(list.Cars()))
      && list.Cars() == Effect(year, old(msg.View()), old(list.Cars()))
      && rc == (if old(msg.opcode) == OP_ADD && !Adds(year, old(msg.View())) then -1 else 0)
    ensures msg == null || list == null ==> rc == -1
    ensures msg == null && list != null ==> list.Cars() == old(list.Cars())
    ensures list == null && msg != null ==> msg.View() == old(msg.View())
  {
    if msg == null || list == null {
      return -1;
    }
    if msg.opcode == OP_SIZE {
      msg.result := ListSize(list);
      msg.opcode := msg.opcode + 1;
      msg.cType := CT_RESULT;
    } else if msg.opcode == OP_ADD {
      rc := InvokeAdd(msg, list, year);
      return;
    } else if msg.opcode == OP_GET {
      InvokeGet(msg, list, year);
    } else if msg.opcode == OP_GETLISTBYTEAR {
      InvokeByYear(msg, list, year);
    } else if msg.opcode == OP_GETMODELS {
      InvokeModels(msg, list, year);
    } else if msg.opcode == OP_DEL {
      InvokeDel(msg, list, year);
    } else {
      msg.Fail();
    }
    return 0;
  }

  method InvokeGet(msg: MessageT, list: List, ghost year: int)
    requires list.Valid() && msg.opcode == OP_GET
    modifies msg
    ensures msg.View() == Reply(year, old(msg.View()), list.Cars())
  {
    if msg.cType == CT_MARCA {
      var car := ListGetByMarca(list, msg.result);
      if car == null {
        msg.Fail();
      } else {
        msg.data := Some(car.value);
        msg.opcode := msg.opcode + 1;
        msg.cType := CT_DATA;
      }
    }
  }

  method InvokeModels(msg: MessageT, list: List, ghost year: int)
    requires list.Valid() && msg.opcode == OP_GETMODELS
    modifies msg
    ensures msg.View() == Reply(year, old(msg.View()), list.Cars())
  {
    var models := ListGetModelList(list);
    msg.models := seq(models.Length - 1, k requires 0 <= k < models.Length && models[k].Some? reads models
                                           => models[k].value);
    assert msg.models == ModelList(list.Cars());
    msg.opcode := msg.opcode + 1;
    msg.cType := CT_MODEL;
  }

  method InvokeDel(msg: MessageT, list: List, ghost year: int)
    requires list.Valid() && msg.opcode == OP_DEL
    modifies msg, Footprint(list)
    ensures list.Valid() && fresh(Footprint(list) - old(Footprint(list)))
    ensures msg.View() == Reply(year, old(msg.View()), old(list.Cars()))
    ensures list.Cars() == Effect(year, old(msg.View()), old(list.Cars()))
  {
    if |msg.models| != 1 {
      msg.Fail();
    } else {
      var res, _ := ListRemoveByModel(list, Some(msg.models[0]));
      msg.opcode := msg.opcode + 1;
      msg.cType := CT_RESULT;
      msg.result := res;
    }
  }

  method InvokeAdd(msg: MessageT, list: List, year: int) returns (rc: int)
    requires list.Valid() && msg.opcode == OP_ADD
    modifies msg, Footprint(list)
    ensures list.Valid() && fresh(Footprint(list) - old(Footprint(list)))
    ensures msg.View() == Reply(year, old(msg.View()), old(list.Cars()))
    ensures list.Cars() == Effect(year, old(msg.View()), old(list.Cars()))
    ensures rc == if Adds(year, old(msg.View())) then 0 else -1
  {
    if msg.data.None? {
      msg.Fail();
      return -1;
    }
    var car := DataCreate(year, msg.data.value);
    if car == null {
      msg.Fail();
      return -1;
    }
    var res := ListAdd(list, car, year);
    msg.opcode := if res == 0 then msg.opcode + 1 else OP_ERROR;
    msg.cType := CT_NONE;
    msg.result := if res == 0 then 0 else -1;
    return 0;
  }

  method InvokeByYear(msg: MessageT, list: List, ghost year: int)
    requires list.Valid() && msg.opcode == OP_GETLISTBYTEAR
    modifies msg, (set n | n in list.nodes)`data
    ensures list.Valid()
    ensures msg.View() == Reply(year, old(msg.View()), old(list.Cars()))
    ensures list.Cars() == Effect(year, old(msg.View()), old(list.Cars()))
  {
    hide List.Valid, SortByYear, ByYear;
    if msg.result != -1 {
      var found := ListGetByYear(list, msg.result);
      ReplyWithList(msg, found, WithYear(list.Records(), msg.result));
    } else {
      var found := OrderAndGetAll(list);
      ReplyWithList(msg, found, list.Records());
    }
  }

  method OrderAndGetAll(list: List) returns (found: array<CarData?>)
    requires list.Valid()
    modifies (set n | n in list.nodes)`data
    ensures list.Valid() && list.Cars() == SortByYear(old(list.Cars()))
    ensures fresh(found) && Holds(found, list.Records())
  {
    var _, _ := ListOrderByYear(list);
    found := ListGetAll(list);
  }

  method ReplyWithList(msg: MessageT, found: array<CarData?>, ghost rs: seq<CarData>)
    requires Holds(found, rs)
    modifies msg
    ensures msg.View() == old(msg.View()).(opcode := old(msg.opcode) + 1, cType := CT_LIST, cars := Values(rs))
  {
    var converted := DataArrayToProtobufArray(found, rs);
    msg.cars := converted[..];
    msg.opcode := msg.opcode + 1;
    msg.cType := CT_LIST;
  }

  /** The handling of one received request, up to the reply; the list lock is held throughout. Any
      reply of the successor at all counts as success. */
  method HandleRequest(request: MessageT, list: List, f: Forward, year: int)
    requires list.Valid()
    modifies request, Footprint(list)
    ensures list.Valid() && fresh(Footprint(list) - old(Footprint(list)))
    ensures request.View() == ServedReply(year, old(request.View()), old(list.Cars()), f)
    ensures list.Cars() == ServedEffect(year, old(request.View()), old(list.Cars()), f)
    ensures old(request.opcode) in {10, 30, 70} && f.NoReply? ==>
      && list.nodes == old(list.nodes) && list.Records() == old(list.Records())
      && request.View() == old(request.View()).(opcode := 99, result := -1)
    ensures !(old(request.opcode) in {10, 30, 70} && f.NoReply?) ==>
      && request.View() == Reply(year, old(request.View()), old(list.Cars()))
      && list.Cars() == Effect(year, old(request.View()), old(list.Cars()))
  {
    var needsForward :=
      request.opcode == OP_ADD || request.opcode == OP_DEL || request.opcode == OP_ORDER;
    if needsForward {
      var rc := match f
        case NoSuccessor => -2
        case NoReply => -1
        case Replied(_) => 0;
      if rc == -2 {
        var _ := Invoke(request, list, year);
      } else if rc != 0 {
        request.opcode := OP_ERROR;
        request.result := -1;
      } else {
        var _ := Invoke(request, list, year);
      }
    } else {
      var _ := Invoke(request, list, year);
    }
  }

  predicate OpSuccess(res: MessageT?, opcode: int, cType: int)
    reads res
  {
    res != null && res.opcode == opcode + 1 && res.opcode != 0 && res.cType == cType
  }

  /** Appends the cars of the predecessor's answer, stopping at the first one that fails
      validation. */
  method AddReceived(res: MessageT?, list: List, year: int) returns (rc: int, ghost n: nat)
    requires list.Valid()
    modifies Footprint(list)
    ensures list.Valid() && fresh(Footprint(list) - old(Footprint(list)))
    ensures rc == if OpSuccess(res, OP_GETLISTBYTEAR, CT_LIST) && AllValidated(year, res.cars) then 0 else -1
    ensures list.Cars() == old(list.Cars()) + if res == null then [] else Received(year, res.View())
    ensures res == null || res.opcode != 61 || res.cType != 60 ==> rc == -1 && list.Cars() == old(list.Cars())
    ensures res != null && res.opcode == 61 && res.cType == 60 ==>
      && n <= |res.cars| && list.Cars() == old(list.Cars()) + res.cars[..n]
      && (forall k :: 0 <= k < n ==> Validated(year, res.cars[k]))
      && if rc == 0 then n == |res.cars| else rc == -1 && n < |res.cars| && !Validated(year, res.cars[n])
  {
    hide Validated;
    n := 0;
    if !OpSuccess(res, OP_GETLISTBYTEAR, CT_LIST) {
      return -1, n;
    }
    var cars := res.cars;
    n := ValidatedPrefix(year, cars);
    assert forall k :: 0 <= k < n ==> cars[..n][k] == cars[k];
    for i := 0 to |cars|
      invariant i <= n
      invariant list.Valid() && fresh(Footprint(list) - old(Footprint(list)))
      invariant list.Cars() == old(list.Cars()) + cars[..i]
    {
      var car := DataCreate(year, cars[i]);
      if car == null {
        return -1, n;
      }
      assert cars[..i] + [cars[i]] == cars[..i + 1];
      assert i != n;
      var added := ListAdd(list, car, year);
    }
    return 0, n;
  }

  /** How far a joining server gets with its predecessor: it cannot connect, its request is lost, the
      answer is lost, or the answer arrives, after which the connection may fail to close. */
  datatype Contact = Unreachable | Unasked | Unanswered | Answered(closed: bool)

  predicate Asked(contact: Contact) {
    contact.Unanswered? || contact.Answered?
  }

  /** The predecessor handles the whole-list query, which leaves its own list in order. */
  method AskForList(predecessor: List, contact: Contact, year: int) returns (res: MessageT?)
    requires predecessor.Valid() && AllValidated(year, predecessor.Cars())
    modifies Footprint(predecessor)
    ensures predecessor.Valid()
    ensures predecessor.Cars() ==
      if Asked(contact) then SortByYear(old(predecessor.Cars())) else old(predecessor.Cars())
    ensures res != null <==> contact.Answered?
    ensures res != null ==>
      && fresh(res) && OpSuccess(res, OP_GETLISTBYTEAR, CT_LIST) && AllValidated(year, res.cars)
      && Received(year, res.View()) == predecessor.Cars()
  {
    if !Asked(contact) {
      return null;
    }
    WholeListReceived(year, predecessor.Cars());
    res := new MessageT(WHOLE_LIST);
    var _ := Invoke(res, predecessor, year);
    if contact.Unanswered? {
      return null;
    }
  }

  /** The new server's list, empty so far, becomes a copy of the predecessor's list in
      its new order, unless no answer arrives. */
  method CopyList(predecessor: List, list: List, contact: Contact, year: int) returns (rc: int)
    requires predecessor.Valid() && list.Valid()
    requires list.nodes == [] && predecessor != list
    requires AllValidated(year, predecessor.Cars())
    modifies Footprint(predecessor), list
    ensures rc == if contact.Answered? then 0 else -1
    ensures predecessor.Valid() && list.Valid()
    ensures predecessor.Cars() ==
      if Asked(contact) then SortByYear(old(predecessor.Cars())) else old(predecessor.Cars())
    ensures list.Cars() == if contact.Answered? then predecessor.Cars() else []
  {
    hide Reply, Effect, Received, SortByYear, AllValidated;
    var res := AskForList(predecessor, contact, year);
    assert Footprint(list) == {list};
    ghost var foot := Footprint(predecessor);
    assert foot !! {list};
    label asked:
    ghost var taken: nat;
    rc, taken := AddReceived(res, list, year);
    assert predecessor.nodes == old@asked(predecessor.nodes);
    assert predecessor.Cars() == old@asked(predecessor.Cars());
  }

  /** Joining: find the predecessor among the children and copy its list. A server without a
      predecessor keeps its empty list. A connection that does not close is an error too, although
      the list has been copied by then. */
  method InitList(children: Topology.Children, self: int, contact: Contact,
                  predecessor: List, list: List, year: int) returns (rc: int)
    requires predecessor.Valid() && list.Valid()
    requires list.nodes == [] && predecessor != list
    requires AllValidated(year, predecessor.Cars())
    modifies Footprint(predecessor), list
    ensures predecessor.Valid() && list.Valid()
    ensures var wanted := |children| > 1
                          && exists j :: 0 <= j < |children| && children[j].Some?
                                         && -0x8000_0000 < children[j].value < self;
            && rc == (if wanted && contact != Answered(true) then -1 else 1)
            && predecessor.Cars() == (if wanted && (contact.Unanswered? || contact.Answered?)
                                      then SortByYear(old(predecessor.Cars()))
                                      else old(predecessor.Cars()))
            && list.Cars() == if wanted && contact.Answered? then predecessor.Cars() else []
  {
    if |children| <= 1 {
      return 1;
    }
    var prevIndex := Topology.FindPredecessor(children, self);
    if prevIndex != -1 {
      if contact == Unreachable {
        return -1;
      }
      var copied := CopyList(predecessor, list, contact, year);
      if copied == -1 {
        return -1;
      }
      if !contact.closed {
        return -1;
      }
    }
    return 1;
  }
}
