/**
 The system as its callers should see it: data, and clients that are in a transaction or
 not. Runs in which no failure makes a session and its handle disagree are runs of
 this ideal system, for any number of interleaved handles.
 */
module SqlIdeal {
  import opened Wrappers
  import opened Sharding
  import opened SqlServer
  import opened TableRewrite
  import opened SqlHandle
  import opened SqlSystem
  import opened SqlCommits

  datatype Client = Client(tableNo: nat, connected: bool, transaction: Option<seq<string>>)

  datatype World = World(data: seq<string>, clients: map<nat, Client>, stopped: bool)

  // ---------------------------------------------------------------------
  // The ideal system
  // ---------------------------------------------------------------------

  /** Whether the reply is a success or not, a text counts when it took effect. */
  function Join(c: Client, sql: string, reply: Reply): Client {
    if c.connected && c.transaction.Some? && TakesEffect(reply) then
      c.(transaction := Some(c.transaction.value + [Prepared(sql, c.tableNo)]))
    else c
  }

  /** Starting and ending discard a transaction; a failed query_nothrow discards it and reconnects if it can. */
  function ClientAfter(c: Client, a: Action, granted: bool): Client {
    match a
    case StartAction(_, reply) => c.(transaction := if reply.Done? then Some([]) else None)
    case EndAction(_, _) => c.(transaction := None)
    case QueryAction(sql, reply) => Join(c, sql, reply)
    case NothrowAction(sql, reply, _, _) =>
      if reply.Failed? then Client(c.tableNo, granted, None) else Join(c, sql, reply)
    case CloseAction(_) => c.(connected := false, transaction := None)
  }

  /** Data comes from statements outside a transaction and from transactions that are committed. */
  function Contributed(c: Client, a: Action): seq<string> {
    match a
    case QueryAction(sql, reply) => ContributedByText(c, sql, reply)
    case NothrowAction(sql, reply, _, _) => ContributedByText(c, sql, reply)
    case EndAction(commit, reply) =>
      if commit && c.transaction.Some? && TakesEffect(reply) then c.transaction.value else []
    case _ => []
  }

  function ContributedByText(c: Client, sql: string, reply: Reply): seq<string> {
    if c.connected && c.transaction.None? && TakesEffect(reply) then [Prepared(sql, c.tableNo)] else []
  }

  /** granted: whether the pool gave a connection in this call, if it was asked. */
  function WorldStep(w: World, call: Call, granted: bool, tagSize: TagSize): World {
    if w.stopped then w
    else
      match call
      case Construct(h, o, _) =>
        if h in w.clients || !granted then w
        else if Completes(o) then w.(clients := w.clients[h := Client(TableNo(o, tagSize), true, None)])
        else w.(stopped := o.buffers && o.dbNum > 0 && o.tbNum > 0)
      case Use(h, a) =>
        if h !in w.clients then w
        else
          var c := w.clients[h];
          w.(data := w.data + Contributed(c, a),
             clients := if a.CloseAction? then w.clients - {h} else w.clients[h := ClientAfter(c, a, granted)])
  }

  function TableNo(o: Opening, tagSize: TagSize): nat {
    var route := Route(StoredKey(o.key, tagSize), o.sign64, o.dbNum, o.tbNum);
    if route.Some? then route.value.table else 0
  }

  function WorldSteps(w: World, calls: seq<Call>, grants: seq<bool>, tagSize: TagSize): World
    requires |grants| == |calls|
    decreases |calls|
  {
    if calls == [] then w
    else WorldSteps(WorldStep(w, calls[0], grants[0], tagSize), calls[1..], grants[1..], tagSize)
  }

  // ---------------------------------------------------------------------
  // The real system seen as an ideal one
  // ---------------------------------------------------------------------

  function ClientOf(h: Handle): Client {
    Client(h.tableNo, h.conn.Some?, if h.transactionOn then Some(TrackOf(h.log).session.pending) else None)
  }

  function ClientsOf(handles: map<nat, Handle>): map<nat, Client> {
    map h | h in handles :: ClientOf(handles[h])
  }

  function WorldOf(sys: System): World {
    World(sys.server.committed, ClientsOf(sys.handles), sys.stopped)
  }

  /** What the pool answered in a call. */
  function GrantedIn(sys: System, call: Call): bool {
    match call
    case Construct(_, _, proposal) => Granted(sys.server, proposal).Some?
    case Use(h, a) => h in sys.handles && Apply(State(sys.server, sys.handles[h]), a).handle.conn.Some?
  }

  function Grants(sys: System, calls: seq<Call>): (r: seq<bool>)
    ensures |r| == |calls|
    decreases |calls|
  {
    if calls == [] then [] else [GrantedIn(sys, calls[0])] + Grants(Step(sys, calls[0]), calls[1..])
  }

  lemma TextIdeal(s: State, sql: string, reply: Reply)
    requires Inv(s) && TrackOf(s.handle.log).cause.None? && !(reply.Failed? && reply.effect.Aborted?)
    ensures ClientOf(Run(s, Text(Prepared(sql, s.handle.tableNo)), reply).handle) == Join(ClientOf(s.handle), sql, reply)
  {
    LogFacts(s.handle.log);
  }

  lemma StartIdeal(s: State, rollback: Reply, reply: Reply)
    requires Inv(s) && TrackOf(s.handle.log).cause.None? && Harmless(StartAction(rollback, reply))
    ensures ClientOf(Start(s, rollback, reply).handle) == ClientAfter(ClientOf(s.handle), StartAction(rollback, reply), false)
  {
    EndTransactionKeeps(s, false, rollback);
    StartKeeps(s, rollback, reply);
    LogFacts(EndTransaction(s, false, rollback).handle.log);
    LogFacts(Start(s, rollback, reply).handle.log);
  }

  lemma ResetIdeal(s: State, rollback: Reply, proposal: Option<Conn>)
    ensures var h := Reset(s, false, rollback, proposal).handle;
            ClientOf(h) == Client(s.handle.tableNo, h.conn.Some?, None)
  {
  }

  lemma ActionIdeal(s: State, a: Action)
    requires Inv(s) && TrackOf(s.handle.log).cause.None? && Harmless(a)
    ensures var h := Apply(s, a).handle;
            ClientOf(h) == ClientAfter(ClientOf(s.handle), a, h.conn.Some?)
  {
    match a
    case StartAction(rollback, reply) => StartIdeal(s, rollback, reply);
    case EndAction(commit, reply) =>
    case QueryAction(sql, reply) => TextIdeal(s, sql, reply);
    case NothrowAction(sql, reply, rollback, proposal) =>
      if reply.Failed? {
        ResetIdeal(Run(s, Text(Prepared(sql, s.handle.tableNo)), reply), rollback, proposal);
      } else {
        TextIdeal(s, sql, reply);
      }
    case CloseAction(rollback) =>
  }

  lemma TextsOfEach(texts: seq<string>, origin: Origin)
    ensures Texts(Each(texts, origin)) == texts
  {
  }

  /** What an action adds is what the client contributes. */
  lemma AddedIdeal(s: State, a: Action)
    requires Inv(s) && TrackOf(s.handle.log).cause.None? && Harmless(a)
    ensures Texts(Added(s, a)) == Contributed(ClientOf(s.handle), a)
  {
    LogFacts(s.handle.log);
    if a.StartAction? {
      HarmlessStart(s, a.rollback, a.reply);
    } else if a.EndAction? {
      TextsOfEach(TrackOf(s.handle.log).session.pending, Requested);
    }
  }

  lemma UseIdeal(sys: System, h: nat, a: Action)
    requires SysInv(sys) && InStep(sys) && Harmless(a)
    ensures WorldOf(Step(sys, Use(h, a))) == WorldStep(WorldOf(sys), Use(h, a), GrantedIn(sys, Use(h, a)), sys.tagSize)
  {
    if h in sys.handles && !sys.stopped {
      var s := State(sys.server, sys.handles[h]);
      ActionIdeal(s, a);
      AddedIdeal(s, a);
      CommittedChanges(s, a);
      ClientsChange(sys.handles, h, Apply(s, a).handle);
    }
  }

  lemma ClientsChange(handles: map<nat, Handle>, h: nat, handle: Handle)
    ensures ClientsOf(handles[h := handle]) == ClientsOf(handles)[h := ClientOf(handle)]
    ensures ClientsOf(handles - {h}) == ClientsOf(handles) - {h}
  {
  }

  lemma OpenIdeal(sv: Server, o: Opening, tagSize: TagSize, proposal: Option<Conn>)
    ensures var r := Open(sv, o, tagSize, proposal).result;
            r.Ok? ==> ClientOf(r.value) == Client(TableNo(o, tagSize), true, None)
  {
  }

  lemma ConstructIdeal(sys: System, h: nat, o: Opening, proposal: Option<Conn>)
    ensures var call := Construct(h, o, proposal);
            WorldOf(Step(sys, call)) == WorldStep(WorldOf(sys), call, GrantedIn(sys, call), sys.tagSize)
  {
    var made := Open(sys.server, o, sys.tagSize, proposal);
    OpenCompletesIff(sys.server, o, sys.tagSize, proposal);
    OpenIdeal(sys.server, o, sys.tagSize, proposal);
    assert made.server.committed == sys.server.committed;
    if made.result.Ok? {
      ClientsChange(sys.handles, h, made.result.value);
    }
  }

  /**
   Any run of any handles in which every failure is harmless is a run of the ideal system: what is
   outside a transaction is kept, a transaction is kept as a whole when its COMMIT takes effect, and
   everything else is discarded.
   */
  lemma {:induction false} HarmlessRunIsIdeal(sys: System, calls: seq<Call>)
    requires SysInv(sys) && InStep(sys)
    requires forall i | 0 <= i < |calls| :: calls[i].Use? ==> Harmless(calls[i].action)
    ensures WorldOf(Steps(sys, calls)) == WorldSteps(WorldOf(sys), calls, Grants(sys, calls), sys.tagSize)
    decreases |calls|
  {
    if calls != [] {
      match calls[0] {
        case Construct(h, o, proposal) => ConstructIdeal(sys, h, o, proposal);
        case Use(h, a) => UseIdeal(sys, h, a);
      }
      StepCommits(sys, calls[0]);
      StepHarmless(sys, calls[0]);
      HarmlessRunIsIdeal(Step(sys, calls[0]), calls[1..]);
      assert Grants(sys, calls)[1..] == Grants(Step(sys, calls[0]), calls[1..]);
    }
  }

  /** From an idle worker the ideal system starts empty. */
  lemma HarmlessRunFromStart(tagSize: TagSize, calls: seq<Call>)
    requires forall i | 0 <= i < |calls| :: calls[i].Use? ==> Harmless(calls[i].action)
    ensures WorldOf(Steps(Idle(tagSize), calls)) ==
            WorldSteps(World([], map[], false), calls, Grants(Idle(tagSize), calls), tagSize)
  {
    HarmlessRunIsIdeal(Idle(tagSize), calls);
    assert WorldOf(Idle(tagSize)) == World([], map[], false);
  }
}
