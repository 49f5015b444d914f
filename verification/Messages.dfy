/** Requests and replies, and what `invoke` does to a request and to a list, as functions. */
module Messages {
  import opened Data
  import opened CarSeqs

  const OP_ADD := 10
  const OP_GET := 20
  const OP_DEL := 30
  const OP_SIZE := 40
  const OP_GETMODELS := 50
  const OP_GETLISTBYTEAR := 60
  const OP_ORDER := 70
  const OP_ERROR := 99

  const CT_DATA := 10
  const CT_MARCA := 20
  const CT_MODEL := 40
  const CT_RESULT := 50
  const CT_LIST := 60
  const CT_NONE := 70

  /** One message type serves as request and as reply. */
  datatype Message = Message(
    opcode: int,
    cType: int,
    data: Option<Car>,
    result: int,
    models: seq<string>,
    cars: seq<Car>)

  /** The requests that a server forwards before it applies them. */
  predicate NeedsForward(m: Message) {
    m.opcode == OP_ADD || m.opcode == OP_DEL || m.opcode == OP_ORDER
  }

  /** The year query with result -1: it orders the list in place. */
  predicate OrderedQuery(m: Message) {
    m.opcode == OP_GETLISTBYTEAR && m.result == -1
  }

  /** An ADD that passes validation, the only kind that changes a list. */
  predicate Adds(year: int, m: Message) {
    m.opcode == OP_ADD && m.data.Some? && Validated(year, m.data.value)
  }

  predicate Deletes(m: Message) {
    m.opcode == OP_DEL && |m.models| == 1
  }

  function Failed(m: Message): Message {
    m.(opcode := OP_ERROR, cType := CT_NONE, result := -1)
  }

  /** The list after the request. */
  function Effect(year: int, m: Message, s: seq<Car>): seq<Car> {
    if Adds(year, m) then s + [m.data.value]
    else if Deletes(m) then RemoveFirst(s, m.models[0])
    else if OrderedQuery(m) then SortByYear(s)
    else s
  }

  /** The request rewritten into its reply. */
  function Reply(year: int, m: Message, s: seq<Car>): Message {
    if m.opcode == OP_SIZE then
      m.(opcode := m.opcode + 1, cType := CT_RESULT, result := |s|)
    else if m.opcode == OP_ADD then
      if Adds(year, m) then m.(opcode := m.opcode + 1, cType := CT_NONE, result := 0) else Failed(m)
    else if m.opcode == OP_GET then
      if m.cType != CT_MARCA then m
      else match FirstByMarca(s, m.result)
        case None => Failed(m)
        case Some(c) => m.(opcode := m.opcode + 1, cType := CT_DATA, data := Some(c))
    else if m.opcode == OP_GETLISTBYTEAR then
      m.(opcode := m.opcode + 1, cType := CT_LIST,
         cars := if m.result == -1 then SortByYear(s) else ByYear(s, m.result))
    else if m.opcode == OP_GETMODELS then
      m.(opcode := m.opcode + 1, cType := CT_MODEL, models := ModelList(s))
    else if m.opcode == OP_DEL then
      if Deletes(m) then
        m.(opcode := m.opcode + 1, cType := CT_RESULT,
           result := if m.models[0] in Models(s) then 0 else 1)
      else Failed(m)
    else Failed(m)
  }

  /** What became of forwarding a request: there is no successor, no reply came back, or some
      reply did. The content of a reply is never looked at. */
  datatype Forward = NoSuccessor | NoReply | Replied(reply: Message)

  /** A server's answer to a request whose forwarding went that way. */
  function ServedReply(year: int, m: Message, s: seq<Car>, f: Forward): Message {
    if NeedsForward(m) && f.NoReply? then m.(opcode := OP_ERROR, result := -1) else Reply(year, m, s)
  }

  function ServedEffect(year: int, m: Message, s: seq<Car>, f: Forward): seq<Car> {
    if NeedsForward(m) && f.NoReply? then s else Effect(year, m, s)
  }

  /** The query with which a new server asks its predecessor for the whole list. */
  const WHOLE_LIST := Message(OP_GETLISTBYTEAR, CT_RESULT, None, -1, [], [])

  /** The length of the longest prefix of validated cars. */
  function ValidatedPrefix(year: int, s: seq<Car>): (n: nat)
    ensures n <= |s| && AllValidated(year, s[..n])
    ensures n < |s| ==> !Validated(year, s[n])
  {
    if s == [] || !Validated(year, s[0]) then 0 else
      var n := ValidatedPrefix(year, s[1..]);
      assert s[..n + 1] == [s[0]] + s[1..][..n];
      n + 1
  }

  /** The cars that a new server takes over from the answer to that query. */
  function Received(year: int, m: Message): seq<Car> {
    if m.opcode == OP_GETLISTBYTEAR + 1 && m.cType == CT_LIST then m.cars[..ValidatedPrefix(year, m.cars)] else []
  }

  /** The whole list is taken over, to its last car, when all its cars are validated. */
  lemma WholeListReceived(year: int, s: seq<Car>)
    requires AllValidated(year, s)
    ensures var m := Reply(year, WHOLE_LIST, s);
            && m.opcode == OP_GETLISTBYTEAR + 1 && m.cType == CT_LIST && AllValidated(year, m.cars)
            && Received(year, m) == m.cars == Effect(year, WHOLE_LIST, s)
    ensures YearEq(Effect(year, WHOLE_LIST, s), s)
    ensures WHOLE_LIST == Message(60, 50, None, -1, [], [])
  {
    EffectKeepsValidated(year, WHOLE_LIST, s);
    SortIsStable(s);
  }

  /** Only validated cars ever enter a list. */
  lemma EffectKeepsValidated(year: int, m: Message, s: seq<Car>)
    requires AllValidated(year, s)
    ensures AllValidated(year, Effect(year, m, s))
  {
    var t := Effect(year, m, s);
    if Deletes(m) && !Adds(year, m) {
      RemoveMembers(s, m.models[0]);
    } else if OrderedQuery(m) {
      SortIsStable(s);
    }
    forall k | 0 <= k < |t| ensures Validated(year, t[k]) {
      assert t[k] in multiset(t);
      if !Adds(year, m) {
        assert t[k] in multiset(s);
        assert t[k] in s;
      }
    }
  }

  lemma {:induction false} RemoveMembers(s: seq<Car>, m: string)
    ensures multiset(RemoveFirst(s, m)) <= multiset(s)
  {
    if s == [] {
    } else {
      assert s == [s[0]] + s[1..];
      RemoveMembers(s[1..], m);
    }
  }

  /** A request that is not forwarded never changes the cars of any year, and a query by year
      is answered alike before and after it. */
  lemma UnforwardedKeepsYears(year: int, m: Message, s: seq<Car>)
    requires !NeedsForward(m)
    ensures YearEq(Effect(year, m, s), s)
    ensures Models(Effect(year, m, s)) == Models(s)
  {
    SortIsStable(s);
    ModelsSort(s);
  }

  /** What a request does to the models in a list. */
  function ModelsEffect(year: int, m: Message, models: multiset<string>): multiset<string> {
    if Adds(year, m) then models + multiset{m.data.value.modelo}
    else if Deletes(m) then models - multiset{m.models[0]}
    else models
  }

  lemma EffectOnModels(year: int, m: Message, s: seq<Car>)
    ensures Models(Effect(year, m, s)) == ModelsEffect(year, m, Models(s))
  {
    if Adds(year, m) {
      ModelsConcat(s, [m.data.value]);
      assert Models([m.data.value]) == multiset{m.data.value.modelo};
    } else if Deletes(m) {
      ModelsRemove(s, m.models[0]);
    } else if OrderedQuery(m) {
      ModelsSort(s);
    }
  }

  /** The reply to a forwarded request depends on nothing but the models in the list. */
  lemma ForwardedReplySeesModelsOnly(year: int, m: Message, s: seq<Car>, t: seq<Car>)
    requires NeedsForward(m) && Models(s) == Models(t)
    ensures Reply(year, m, s) == Reply(year, m, t)
  {
    assert m.opcode == OP_ADD || m.opcode == OP_DEL || m.opcode == OP_ORDER;
  }

  /** The request does not delete different years' cars from the two lists. */
  ghost predicate DeletesAlike(m: Message, s: seq<Car>, t: seq<Car>) {
    Deletes(m) && m.models[0] in Models(s) && m.models[0] in Models(t) ==>
      FirstMatch(s, m.models[0]).ano == FirstMatch(t, m.models[0]).ano
  }

  /** A forwarded request applied to two year-equivalent lists keeps them so exactly when it
      is not a deletion whose first matches are of different years. */
  lemma ForwardedKeepsYearEqIff(year: int, m: Message, s: seq<Car>, t: seq<Car>)
    requires NeedsForward(m) && YearEq(s, t)
    ensures YearEq(Effect(year, m, s), Effect(year, m, t)) <==> DeletesAlike(m, s, t)
  {
    if Adds(year, m) {
      YearEqConcat(s, t, [m.data.value]);
    } else if Deletes(m) {
      var k := m.models[0];
      YearEqModels(s, t, k);
      if k in Models(s) {
        RemoveKeepsYearEqIff(s, t, k);
      } else {
        ModelsRemove(s, k);
        ModelsRemove(t, k);
      }
    }
  }
}
