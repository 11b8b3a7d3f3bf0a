/**
 Any number of handles sharing one worker, with whole calls in any order: what
 holds in every reachable state.
 */
module SqlSystem {
  import opened CStrings
  import opened Wrappers
  import opened Arith
  import opened Sharding
  import opened SqlServer
  import opened TableRewrite
  import opened SqlHandle

  // ---------------------------------------------------------------------
  // Actions of one handle
  // ---------------------------------------------------------------------

  /** A call on a handle together with the answers the outside world gives during it. */
  datatype Action =
    | StartAction(rollback: Reply, reply: Reply)
    | EndAction(commit: bool, reply: Reply)
    | QueryAction(sql: string, reply: Reply)
    | NothrowAction(sql: string, reply: Reply, rollback: Reply, proposal: Option<Conn>)
    | CloseAction(rollback: Reply)

  function Apply(s: State, a: Action): State {
    match a
    case StartAction(rollback, reply) => Start(s, rollback, reply)
    case EndAction(commit, reply) => EndTransaction(s, commit, reply)
    case QueryAction(sql, reply) => RunText(s, sql, reply)
    case NothrowAction(sql, reply, rollback, proposal) => RunTextNothrow(s, sql, reply, rollback, proposal)
    case CloseAction(rollback) => Destroy(s, rollback)
  }

  lemma ApplyKeeps(s: State, a: Action)
    requires Inv(s)
    ensures Inv(Apply(s, a))
    ensures a.CloseAction? ==> Apply(s, a).handle.conn.None? && !Apply(s, a).handle.transactionOn
  {
    match a
    case StartAction(rollback, reply) => StartKeeps(s, rollback, reply);
    case EndAction(commit, reply) => EndTransactionKeeps(s, commit, reply);
    case QueryAction(sql, reply) => RunTextKeeps(s, sql, reply);
    case NothrowAction(sql, reply, rollback, proposal) => RunTextNothrowKeeps(s, sql, reply, rollback, proposal);
    case CloseAction(rollback) => DestroyKeeps(s, rollback);
  }

  /** The stored key and the key first asked for do not change. */
  predicate SameKeys(s: State, s': State) {
    var first := TrackOf(s.handle.log).first;
    s'.handle.key == s.handle.key && (first.Some? ==> TrackOf(s'.handle.log).first == first)
  }

  lemma EndSameKeys(s: State, commit: bool, reply: Reply)
    ensures SameKeys(s, EndTransaction(s, commit, reply))
    ensures SameKeys(s, Release(EndTransaction(s, commit, reply)))
  {
    assert SameKeys(EndTransaction(s, commit, reply), Release(EndTransaction(s, commit, reply)));
  }

  lemma ResetSameKeys(s: State, commit: bool, reply: Reply, proposal: Option<Conn>)
    ensures SameKeys(s, Reset(s, commit, reply, proposal))
  {
    var s2 := Release(EndTransaction(s, commit, reply));
    EndSameKeys(s, commit, reply);
    assert SameKeys(s2, Acquire(s2, proposal));
  }

  lemma RunSameKeys(s: State, stmt: Stmt, reply: Reply)
    ensures SameKeys(s, Run(s, stmt, reply))
  {
  }

  lemma ApplySameKeys(s: State, a: Action)
    ensures SameKeys(s, Apply(s, a))
  {
    match a
    case StartAction(rollback, reply) =>
      EndSameKeys(s, false, rollback);
      RunSameKeys(EndTransaction(s, false, rollback), StartTransaction, reply);
    case EndAction(commit, reply) => EndSameKeys(s, commit, reply);
    case QueryAction(sql, reply) => RunSameKeys(s, Text(Prepared(sql, s.handle.tableNo)), reply);
    case NothrowAction(sql, reply, rollback, proposal) =>
      RunSameKeys(s, Text(Prepared(sql, s.handle.tableNo)), reply);
      ResetSameKeys(Run(s, Text(Prepared(sql, s.handle.tableNo)), reply), false, rollback, proposal);
    case CloseAction(rollback) => EndSameKeys(s, false, rollback);
  }

  // ---------------------------------------------------------------------
  // What a handle leaves alone
  // ---------------------------------------------------------------------

  predicate SameConnection(sv: Server, sv': Server, c: Conn) {
    && c in sv.lent && c in sv'.lent && sv.lent[c] == sv'.lent[c]
    && SessionOf(sv, c) == SessionOf(sv', c)
  }

  /** Connections lent to others stay as they are, and committed data is only added to. */
  predicate Framed(s: State, s': State) {
    && (forall c | c in s.server.lent && c !in Held(s.handle) :: SameConnection(s.server, s'.server, c))
    && s'.server.lent.Keys == s.server.lent.Keys - Held(s.handle) + Held(s'.handle)
    && Held(s'.handle) * (s.server.lent.Keys - Held(s.handle)) == {}
    && s.server.committed <= s'.server.committed
  }

  lemma FramedTransitive(a: State, b: State, c: State)
    requires Framed(a, b) && Framed(b, c)
    ensures Framed(a, c)
  {
    forall x | x in a.server.lent && x !in Held(a.handle)
      ensures SameConnection(a.server, c.server, x)
    {
      assert SameConnection(a.server, b.server, x);
      assert x !in Held(b.handle);
      assert SameConnection(b.server, c.server, x);
    }
  }

  lemma RunFramed(s: State, stmt: Stmt, reply: Reply)
    requires LentToHandle(s.server, s.handle)
    ensures Framed(s, Run(s, stmt, reply))
  {
  }

  lemma EndTransactionFramed(s: State, commit: bool, reply: Reply)
    requires LentToHandle(s.server, s.handle)
    ensures Framed(s, EndTransaction(s, commit, reply))
  {
    RunFramed(s, if commit then Commit else Rollback, reply);
  }

  lemma BeginTransactionFramed(s: State, reply: Reply)
    requires LentToHandle(s.server, s.handle)
    ensures Framed(s, BeginTransaction(s, reply))
  {
    RunFramed(s, StartTransaction, reply);
  }

  lemma StartFramed(s: State, rollback: Reply, reply: Reply)
    requires LentToHandle(s.server, s.handle)
    ensures Framed(s, Start(s, rollback, reply))
  {
    var s1 := EndTransaction(s, false, rollback);
    EndTransactionFramed(s, false, rollback);
    BeginTransactionFramed(s1, reply);
    FramedTransitive(s, s1, BeginTransaction(s1, reply));
  }

  lemma ReleaseFramed(s: State)
    requires LentToHandle(s.server, s.handle)
    ensures Framed(s, Release(s))
  {
  }

  lemma AcquireFramed(s: State, proposal: Option<Conn>)
    requires s.handle.conn.None?
    ensures Framed(s, Acquire(s, proposal))
  {
  }

  lemma DestroyFramed(s: State, commit: bool, rollback: Reply)
    requires LentToHandle(s.server, s.handle)
    ensures Framed(s, Release(EndTransaction(s, commit, rollback)))
  {
    var s1 := EndTransaction(s, commit, rollback);
    EndTransactionFramed(s, commit, rollback);
    ReleaseFramed(s1);
    FramedTransitive(s, s1, Release(s1));
  }

  lemma ResetFramed(s: State, commit: bool, reply: Reply, proposal: Option<Conn>)
    requires LentToHandle(s.server, s.handle)
    ensures Framed(s, Reset(s, commit, reply, proposal))
  {
    var s1 := Release(EndTransaction(s, commit, reply));
    DestroyFramed(s, commit, reply);
    AcquireFramed(s1, proposal);
    FramedTransitive(s, s1, Acquire(s1, proposal));
  }

  lemma ApplyFramed(s: State, a: Action)
    requires LentToHandle(s.server, s.handle)
    ensures Framed(s, Apply(s, a))
  {
    match a
    case StartAction(rollback, reply) => StartFramed(s, rollback, reply);
    case EndAction(commit, reply) => EndTransactionFramed(s, commit, reply);
    case QueryAction(sql, reply) => RunFramed(s, Text(Prepared(sql, s.handle.tableNo)), reply);
    case NothrowAction(sql, reply, rollback, proposal) =>
      var s1 := Run(s, Text(Prepared(sql, s.handle.tableNo)), reply);
      RunFramed(s, Text(Prepared(sql, s.handle.tableNo)), reply);
      if reply.Failed? {
        ResetFramed(s1, false, rollback, proposal);
        FramedTransitive(s, s1, Reset(s1, false, rollback, proposal));
      }
    case CloseAction(rollback) => DestroyFramed(s, false, rollback);
  }

  // ---------------------------------------------------------------------
  // The whole system
  // ---------------------------------------------------------------------

  /**
   tagSize: the size of _tag, the same for all handles.
   leaked: connections taken by constructors that did not complete, for which no destructor runs.
   closed: the logs of the handles that have been destroyed.
   stopped: a constructor has divided by zero and the program is gone.
   */
  datatype System = System(tagSize: TagSize, server: Server, handles: map<nat, Handle>, leaked: set<Conn>,
                           closed: seq<Log>, stopped: bool)

  datatype Call =
    | Construct(h: nat, opening: Opening, proposal: Option<Conn>)
    | Use(h: nat, action: Action)

  function Step(sys: System, call: Call): System {
    if sys.stopped then sys
    else
      match call
      case Construct(h, opening, proposal) =>
        if h in sys.handles then sys else AddHandle(sys, h, Open(sys.server, opening, sys.tagSize, proposal))
      case Use(h, action) =>
        if h !in sys.handles then sys
        else
          var s := Apply(State(sys.server, sys.handles[h]), action);
          if action.CloseAction? then
            sys.(server := s.server, handles := sys.handles - {h}, closed := sys.closed + [s.handle.log])
          else sys.(server := s.server, handles := sys.handles[h := s.handle])
  }

  /** What becomes of the connection a constructor took: its handle holds it, or nobody does. */
  function AddHandle(sys: System, h: nat, o: Opened): System {
    if o.result.Ok? then sys.(server := o.server, handles := sys.handles[h := o.result.value])
    else sys.(server := o.server, leaked := sys.leaked + (o.server.lent.Keys - sys.server.lent.Keys),
              stopped := o.result.error.Stopped?)
  }

  function Steps(sys: System, calls: seq<Call>): System
    decreases |calls|
  {
    if calls == [] then sys else Steps(Step(sys, calls[0]), calls[1..])
  }

  predicate Exclusive(handles: map<nat, Handle>) {
    forall g, h | g in handles && h in handles && g != h :: Held(handles[g]) !! Held(handles[h])
  }

  /** Every connection lent out has a holder, or was leaked by a constructor. */
  predicate Accounted(sys: System) {
    && (forall c | c in sys.server.lent :: c in sys.leaked || exists h :: h in sys.handles && c in Held(sys.handles[h]))
    && (forall c | c in sys.leaked :: c in sys.server.lent)
    && (forall h | h in sys.handles :: Held(sys.handles[h]) !! sys.leaked)
  }

  /** What holds at every moment, also in the middle of a call. */
  predicate SysCore(sys: System) {
    && PoolClean(sys.server)
    && (forall h | h in sys.handles :: Core(State(sys.server, sys.handles[h])))
    && (forall h | h in sys.handles :: KeyStored(sys.handles[h], sys.tagSize))
    && Exclusive(sys.handles)
    && Accounted(sys)
    && (forall i | 0 <= i < |sys.closed| :: Finished(sys.closed[i], sys.tagSize))
  }

  predicate SysInv(sys: System) {
    SysCore(sys) && forall h | h in sys.handles :: FailureNoted(sys.handles[h])
  }

  /** The handle's key is what was left of the key first asked for. */
  predicate KeyStored(h: Handle, tagSize: TagSize) {
    var first := TrackOf(h.log).first;
    first.Some? && h.key == StoredKey(first.value, tagSize)
  }

  /**
   A handle's history from constructor to destructor. Its connections went back under the keys they
   were taken with exactly when the first key was not cut.
   */
  predicate Finished(log: Log, tagSize: TagSize) {
    var t := TrackOf(log);
    t.ok && t.held.None? && !t.on && t.first.Some? && (t.keyed <==> StoredKey(t.first.value, tagSize) == t.first.value)
  }

  /** Nothing lent, no sessions open. */
  function Idle(tagSize: TagSize): System {
    System(tagSize, Server(map[], map[], []), map[], {}, [], false)
  }

  lemma HeldIsLent(s: State)
    requires Core(s)
    ensures Held(s.handle) <= s.server.lent.Keys
  {
  }

  lemma OtherKept(s: State, s': State, other: Handle)
    requires Framed(s, s') && PoolClean(s'.server) && Core(State(s.server, other)) && Held(other) !! Held(s.handle)
    ensures Core(State(s'.server, other)) && Held(other) !! Held(s'.handle)
  {
    HeldIsLent(State(s.server, other));
    if other.conn.Some? {
      assert other.conn.value in s.server.lent;
      assert SameConnection(s.server, s'.server, other.conn.value);
    }
  }

  lemma OthersKept(sys: System, h: nat, s': State)
    requires h in sys.handles && PoolClean(s'.server) && Framed(State(sys.server, sys.handles[h]), s')
    requires Exclusive(sys.handles) && forall g | g in sys.handles :: Core(State(sys.server, sys.handles[g]))
    ensures forall g | g in sys.handles && g != h ::
              Core(State(s'.server, sys.handles[g])) && Held(sys.handles[g]) !! Held(s'.handle)
  {
    forall g | g in sys.handles && g != h
      ensures Core(State(s'.server, sys.handles[g])) && Held(sys.handles[g]) !! Held(s'.handle)
    {
      OtherKept(State(sys.server, sys.handles[h]), s', sys.handles[g]);
    }
  }

  /** The handles after handle h, now in state s', has acted. */
  predicate Replaced(handles: map<nat, Handle>, handles': map<nat, Handle>, h: nat, h': Handle) {
    handles' == handles[h := h'] || (handles' == handles - {h} && h'.conn.None?)
  }

  lemma HolderAfter(sys: System, h: nat, s': State, handles': map<nat, Handle>, c: Conn)
    requires h in sys.handles && Accounted(sys)
    requires Framed(State(sys.server, sys.handles[h]), s') && Replaced(sys.handles, handles', h, s'.handle)
    requires c in s'.server.lent && c !in sys.leaked
    ensures exists g :: g in handles' && c in Held(handles'[g])
  {
    if c in Held(s'.handle) {
      assert h in handles' && c in Held(handles'[h]);
    } else {
      assert c in sys.server.lent && c !in Held(sys.handles[h]);
      var g :| g in sys.handles && c in Held(sys.handles[g]);
      assert g in handles' && c in Held(handles'[g]);
    }
  }

  /** Handle h moved to s'; the connections lent out are still accounted for. */
  lemma AccountedAfter(sys: System, h: nat, s': State, handles': map<nat, Handle>)
    requires h in sys.handles && Accounted(sys)
    requires Framed(State(sys.server, sys.handles[h]), s') && Replaced(sys.handles, handles', h, s'.handle)
    ensures Accounted(sys.(server := s'.server, handles := handles'))
  {
    forall c | c in s'.server.lent && c !in sys.leaked
      ensures exists g :: g in handles' && c in Held(handles'[g])
    {
      HolderAfter(sys, h, s', handles', c);
    }
    forall c | c in sys.leaked ensures c in s'.server.lent && c !in Held(s'.handle) {
      assert c in sys.server.lent && c !in Held(sys.handles[h]);
    }
  }

  /** Handle h moved to s', or was removed in s'; the system is in order. */
  lemma MoveKeeps(sys: System, h: nat, s': State, handles': map<nat, Handle>)
    requires SysCore(sys) && h in sys.handles && Core(s') && KeyStored(s'.handle, sys.tagSize)
    requires Framed(State(sys.server, sys.handles[h]), s') && Replaced(sys.handles, handles', h, s'.handle)
    ensures SysCore(sys.(server := s'.server, handles := handles'))
  {
    OthersKept(sys, h, s');
    AccountedAfter(sys, h, s', handles');
  }

  lemma CloseKeeps(sys: System, h: Handle)
    requires SysCore(sys) && Agrees(h) && KeyStored(h, sys.tagSize) && h.conn.None? && !h.transactionOn
    ensures SysCore(sys.(closed := sys.closed + [h.log]))
  {
    assert Finished(h.log, sys.tagSize);
  }

  lemma UseKeeps(sys: System, h: nat, action: Action)
    requires SysInv(sys)
    ensures SysInv(Step(sys, Use(h, action)))
  {
    if h in sys.handles && !sys.stopped {
      var s := State(sys.server, sys.handles[h]);
      var s' := Apply(s, action);
      ApplyKeeps(s, action);
      ApplyFramed(s, action);
      ApplySameKeys(s, action);
      if action.CloseAction? {
        MoveKeeps(sys, h, s', sys.handles - {h});
        CloseKeeps(sys.(server := s'.server, handles := sys.handles - {h}), s'.handle);
      } else {
        MoveKeeps(sys, h, s', sys.handles[h := s'.handle]);
      }
    }
  }

  lemma LendKept(sv: Server, c: Conn, key: Key, other: Handle)
    requires Core(State(sv, other)) && c !in sv.lent
    ensures Core(State(Lend(sv, c, key), other)) && c !in Held(other)
  {
  }

  lemma FreshHandle(sv: Server, c: Conn, asked: Key, tagSize: TagSize, tableNo: nat)
    requires PoolClean(sv) && c !in sv.lent
    ensures var h := NewHandle(StoredKey(asked, tagSize), tableNo, c, asked);
            Inv(State(Lend(sv, c, asked), h)) && KeyStored(h, tagSize)
  {
    assert TrackOf(Snoc(Empty, Took(c, asked))) == Observe(TrackOf(Empty), Took(c, asked));
  }

  lemma OpenAccounted(sys: System, h: nat, o: Opened, c: Conn, key: Key)
    requires Accounted(sys) && h !in sys.handles && c !in sys.server.lent && o.server == Lend(sys.server, c, key)
    requires o.result.Ok? ==> o.result.value.conn == Some(c)
    requires forall g | g in sys.handles :: Held(sys.handles[g]) <= sys.server.lent.Keys
    ensures Accounted(AddHandle(sys, h, o))
  {
    var sys' := AddHandle(sys, h, o);
    assert o.server.lent.Keys == sys.server.lent.Keys + {c};
    forall d | d in sys'.server.lent
      ensures d in sys'.leaked || exists g :: g in sys'.handles && d in Held(sys'.handles[g])
    {
      if d == c {
        if o.result.Ok? { assert h in sys'.handles && d in Held(sys'.handles[h]); }
      } else if d !in sys.leaked {
        var g :| g in sys.handles && d in Held(sys.handles[g]);
        assert g in sys'.handles && d in Held(sys'.handles[g]);
      }
    }
  }

  lemma OthersLent(sys: System, c: Conn, key: Key)
    requires c !in sys.server.lent && forall g | g in sys.handles :: Core(State(sys.server, sys.handles[g]))
    ensures forall g | g in sys.handles ::
              && Core(State(Lend(sys.server, c, key), sys.handles[g]))
              && c !in Held(sys.handles[g]) && Held(sys.handles[g]) <= sys.server.lent.Keys
  {
    forall g | g in sys.handles
      ensures Core(State(Lend(sys.server, c, key), sys.handles[g]))
      ensures c !in Held(sys.handles[g]) && Held(sys.handles[g]) <= sys.server.lent.Keys
    {
      LendKept(sys.server, c, key, sys.handles[g]);
      HeldIsLent(State(sys.server, sys.handles[g]));
    }
  }

  lemma OpenedInOrder(sv: Server, opening: Opening, tagSize: TagSize, c: Conn)
    requires PoolClean(sv) && c !in sv.lent
    ensures var o := Open(sv, opening, tagSize, Some(c));
            && o.server == Lend(sv, c, opening.key)
            && (o.result.Ok? ==> Inv(State(o.server, o.result.value)) && KeyStored(o.result.value, tagSize) &&
                                 o.result.value.conn == Some(c))
  {
    var o := Open(sv, opening, tagSize, Some(c));
    if o.result.Ok? {
      FreshHandle(sv, c, opening.key, tagSize, o.result.value.tableNo);
    }
  }

  /** A new handle beside others that hold none of its connections. */
  lemma BesideOthers(sv: Server, handles: map<nat, Handle>, h: nat, added: Handle, c: Conn, tagSize: TagSize)
    requires h !in handles && Core(State(sv, added)) && KeyStored(added, tagSize) && added.conn == Some(c)
    requires Exclusive(handles)
    requires forall g | g in handles ::
               Core(State(sv, handles[g])) && KeyStored(handles[g], tagSize) && c !in Held(handles[g])
    ensures var all := handles[h := added];
            && Exclusive(all)
            && (forall g | g in all :: Core(State(sv, all[g])) && KeyStored(all[g], tagSize))
  {
  }

  lemma AddedInOrder(sys: System, h: nat, o: Opened, c: Conn, key: Key)
    requires SysCore(sys) && h !in sys.handles && c !in sys.server.lent && o.server == Lend(sys.server, c, key)
    requires o.result.Ok? ==> Core(State(o.server, o.result.value)) && KeyStored(o.result.value, sys.tagSize) &&
                              o.result.value.conn == Some(c)
    ensures SysCore(AddHandle(sys, h, o))
  {
    OthersLent(sys, c, key);
    OpenAccounted(sys, h, o, c, key);
    if o.result.Ok? {
      BesideOthers(o.server, sys.handles, h, o.result.value, c, sys.tagSize);
    }
    LentClean(sys.server, c, key);
  }

  lemma LentClean(sv: Server, c: Conn, key: Key)
    requires PoolClean(sv)
    ensures PoolClean(Lend(sv, c, key))
  {
  }

  lemma ConstructCore(sys: System, h: nat, opening: Opening, proposal: Option<Conn>)
    requires SysCore(sys)
    ensures SysCore(Step(sys, Construct(h, opening, proposal)))
  {
    if h !in sys.handles && !sys.stopped {
      if Granted(sys.server, proposal).Some? {
        OpenedInOrder(sys.server, opening, sys.tagSize, proposal.value);
        AddedInOrder(sys, h, Open(sys.server, opening, sys.tagSize, proposal), proposal.value, opening.key);
      } else {
        assert AddHandle(sys, h, Open(sys.server, opening, sys.tagSize, proposal)) == sys;
      }
    }
  }

  lemma ConstructKeeps(sys: System, h: nat, opening: Opening, proposal: Option<Conn>)
    requires SysInv(sys)
    ensures SysInv(Step(sys, Construct(h, opening, proposal)))
  {
    ConstructCore(sys, h, opening, proposal);
    if Granted(sys.server, proposal).Some? {
      OpenedInOrder(sys.server, opening, sys.tagSize, proposal.value);
    }
    NotedAfter(sys, h, Open(sys.server, opening, sys.tagSize, proposal));
  }

  lemma NotedAfter(sys: System, h: nat, o: Opened)
    requires forall g | g in sys.handles :: FailureNoted(sys.handles[g])
    requires o.result.Ok? ==> FailureNoted(o.result.value)
    ensures forall g | g in AddHandle(sys, h, o).handles :: FailureNoted(AddHandle(sys, h, o).handles[g])
  {
  }

  // ---------------------------------------------------------------------
  // What a log of a finished handle means
  // ---------------------------------------------------------------------

  function Takes(log: Log, c: Conn): nat {
    match log
    case Empty => 0
    case Snoc(before, e) => Takes(before, c) + if e.Took? && e.conn == c then 1 else 0
  }

  function Returns(log: Log, c: Conn): nat {
    match log
    case Empty => 0
    case Snoc(before, e) => Returns(before, c) + if e.PutBack? && e.conn == c then 1 else 0
  }

  /** Each connection is put back exactly as often as it was taken. */
  lemma {:induction false} TakesMatchReturns(log: Log, c: Conn)
    requires TrackOf(log).ok
    ensures var held := TrackOf(log).held;
            Takes(log, c) == Returns(log, c) + if held.Some? && held.value.0 == c then 1 else 0
  {
    match log
    case Empty =>
    case Snoc(before, e) => TakesMatchReturns(before, c);
  }

  /** Successful START TRANSACTIONs and attempts to end one. */
  function Begins(log: Log): nat {
    match log
    case Empty => 0
    case Snoc(before, e) => Begins(before) + if e.Ran? && e.stmt.StartTransaction? && e.reply.Done? then 1 else 0
  }

  function Ends(log: Log): nat {
    match log
    case Empty => 0
    case Snoc(before, e) => Ends(before) + if e.Ran? && (e.stmt.Commit? || e.stmt.Rollback?) then 1 else 0
  }

  /** Transactions are bracketed: every one begun is ended once, and nothing else is. */
  lemma {:induction false} BeginsMatchEnds(log: Log)
    requires TrackOf(log).ok
    ensures Begins(log) == Ends(log) + if TrackOf(log).on then 1 else 0
  {
    match log
    case Empty =>
    case Snoc(before, e) => BeginsMatchEnds(before);
  }

  /** The last connection put back. */
  function LastReturn(log: Log): Option<Event> {
    match log
    case Empty => None
    case Snoc(before, e) => if e.PutBack? then Some(e) else LastReturn(before)
  }

  /**
   query_nothrow asks for the connection it failed on to be reconnected. It is, exactly when the
   field was set before the call or the ROLLBACK of an open transaction fails as well.
   */
  lemma FailedNothrowReconnectsIff(s: State, sql: string, reply: Reply, rollback: Reply, proposal: Option<Conn>)
    requires s.handle.conn.Some? && reply.Failed?
    ensures LastReturn(RunTextNothrow(s, sql, reply, rollback, proposal).handle.log) ==
            Some(PutBack(s.handle.conn.value, s.handle.key,
                         s.handle.reConn || (s.handle.transactionOn && rollback.Failed?)))
  {
  }

  // ---------------------------------------------------------------------
  // Which connections are going to be reconnected
  // ---------------------------------------------------------------------

  /** The action makes the handle reconnect: a failed COMMIT, ROLLBACK, START TRANSACTION or throwing query. */
  predicate Marks(h: Handle, a: Action) {
    match a
    case StartAction(rollback, reply) => reply.Failed? || (h.transactionOn && rollback.Failed?)
    case EndAction(_, reply) => h.transactionOn && reply.Failed?
    case QueryAction(_, reply) => reply.Failed?
    case NothrowAction(_, reply, rollback, _) => reply.Failed? && h.transactionOn && rollback.Failed?
    case CloseAction(rollback) => h.transactionOn && rollback.Failed?
  }

  lemma MarkedByAction(s: State, a: Action)
    ensures Apply(s, a).handle.reConn <==> s.handle.reConn || Marks(s.handle, a)
  {
  }

  /** Some call of the run on handle h marks it. */
  predicate MarkedIn(sys: System, calls: seq<Call>, h: nat)
    decreases |calls|
  {
    && calls != [] && h in sys.handles && !sys.stopped
    && ((calls[0].Use? && calls[0].h == h && Marks(sys.handles[h], calls[0].action))
        || MarkedIn(Step(sys, calls[0]), calls[1..], h))
  }

  /** A handle is marked exactly when a call on it marked it; the mark outlives the connection it was made for. */
  lemma {:induction false} MarkedIff(sys: System, calls: seq<Call>, h: nat)
    requires h in sys.handles
    requires forall i | 0 <= i < |calls| :: calls[i].Use? && calls[i].h == h ==> !calls[i].action.CloseAction?
    ensures h in Steps(sys, calls).handles
    ensures Steps(sys, calls).handles[h].reConn <==> sys.handles[h].reConn || MarkedIn(sys, calls, h)
    decreases |calls|
  {
    if calls != [] {
      MarkedByStep(sys, calls[0], h);
      MarkedIff(Step(sys, calls[0]), calls[1..], h);
      if sys.stopped {
        NothingMarked(sys, calls[1..], h);
      }
    }
  }

  lemma MarkedByStep(sys: System, call: Call, h: nat)
    requires h in sys.handles && (call.Use? && call.h == h ==> !call.action.CloseAction?)
    ensures h in Step(sys, call).handles
    ensures Step(sys, call).handles[h].reConn <==>
            || sys.handles[h].reConn
            || (!sys.stopped && call.Use? && call.h == h && Marks(sys.handles[h], call.action))
  {
    if call.Use? && call.h == h {
      MarkedByAction(State(sys.server, sys.handles[h]), call.action);
    }
  }

  lemma NothingMarked(sys: System, calls: seq<Call>, h: nat)
    requires sys.stopped
    ensures !MarkedIn(sys, calls, h)
  {
  }

  // ---------------------------------------------------------------------
  // Runs
  // ---------------------------------------------------------------------

  /** The invariant holds in every reachable state. */
  lemma {:induction false} EveryRunSafe(sys: System, calls: seq<Call>)
    requires SysInv(sys)
    ensures SysInv(Steps(sys, calls)) && Steps(sys, calls).tagSize == sys.tagSize
    decreases |calls|
  {
    if calls != [] {
      match calls[0] {
        case Construct(h, opening, proposal) => ConstructKeeps(sys, h, opening, proposal);
        case Use(h, action) => UseKeeps(sys, h, action);
      }
      EveryRunSafe(Step(sys, calls[0]), calls[1..]);
    }
  }

  /**
   The whole life of a handle: it put back each connection as often as it took it, ended each
   transaction it began, and used the keys it was given exactly when the tag fits its array.
   */
  ghost predicate Balanced(log: Log, tagSize: TagSize) {
    && (forall c: Conn :: Takes(log, c) == Returns(log, c))
    && Begins(log) == Ends(log)
    && TrackOf(log).first.Some?
    && (TrackOf(log).keyed <==> TagFits(TrackOf(log).first.value, tagSize))
  }

  predicate TagFits(key: Key, tagSize: TagSize) {
    key.ByTag? ==> |key.tag| < tagSize
  }

  /** A key is stored as it was asked for exactly when its tag fits. */
  lemma KeyStoredIff(key: Key, tagSize: TagSize)
    ensures StoredKey(key, tagSize) == key <==> TagFits(key, tagSize)
  {
  }

  lemma FinishedIsBalanced(log: Log, tagSize: TagSize)
    requires Finished(log, tagSize)
    ensures Balanced(log, tagSize)
  {
    forall c: Conn ensures Takes(log, c) == Returns(log, c) {
      TakesMatchReturns(log, c);
    }
    BeginsMatchEnds(log);
    KeyStoredIff(TrackOf(log).first.value, tagSize);
  }

  /**
   From an idle worker, after any calls in any order: no connection in the pool carries a
   transaction, no connection has two holders, every destroyed handle has returned all it took,
   and with no handle left only leaked connections are still lent out.
   */
  lemma EveryRunFromStart(tagSize: TagSize, calls: seq<Call>)
    ensures var sys := Steps(Idle(tagSize), calls);
            && SysInv(sys)
            && (forall c: Conn | c !in sys.server.lent :: SessionOf(sys.server, c) == IDLE)
            && (sys.handles == map[] ==> sys.server.lent.Keys == sys.leaked)
            && (forall i | 0 <= i < |sys.closed| :: Balanced(sys.closed[i], tagSize))
  {
    EveryRunSafe(Idle(tagSize), calls);
    var sys := Steps(Idle(tagSize), calls);
    forall i | 0 <= i < |sys.closed| ensures Balanced(sys.closed[i], tagSize) {
      FinishedIsBalanced(sys.closed[i], tagSize);
    }
  }

  /** What a constructor needs beside a connection: its buffers and, unless it is given a database, counts it can divide by. */
  predicate Completes(o: Opening) {
    o.buffers && (o.key.ByDbid? || o.dbNum * o.tbNum % TWO64 != 0)
  }

  lemma OpenCompletesIff(sv: Server, o: Opening, tagSize: TagSize, proposal: Option<Conn>)
    ensures Open(sv, o, tagSize, proposal).result.Ok? <==> Granted(sv, proposal).Some? && Completes(o)
    ensures Open(sv, o, tagSize, proposal).result == Err(Stopped) <==>
            Granted(sv, proposal).Some? && o.buffers && !Completes(o) && o.dbNum > 0 && o.tbNum > 0
    ensures Open(sv, o, tagSize, proposal).result == Err(MysqlError) <==> Granted(sv, proposal).None?
    ensures Open(sv, o, tagSize, proposal).result == Err(SysError) <==>
            Granted(sv, proposal).Some? && (!o.buffers || (!o.key.ByDbid? && (o.dbNum == 0 || o.tbNum == 0)))
  {
    if o.dbNum == 0 || o.tbNum == 0 {
      assert o.dbNum * o.tbNum == 0;
    }
  }

  /**
   Key and table of every new handle: by the id, by the hash of the tag as far as it fits its array, and
   table 0 of a database. The product of the counts wraps at 2^64.
   */
  lemma OpenedTable(sv: Server, o: Opening, tagSize: TagSize, proposal: Option<Conn>)
    requires Open(sv, o, tagSize, proposal).result.Ok?
    ensures var handle, m := Open(sv, o, tagSize, proposal).result.value, o.dbNum * o.tbNum % 0x1_0000_0000_0000_0000;
            match o.key
            case ById(id) => m > 0 && o.tbNum > 0 && handle.key == ById(id) && handle.tableNo == id % m % o.tbNum
            case ByTag(tag) =>
              && m > 0 && o.tbNum > 0 && handle.key.ByTag? && handle.key.tag <= tag
              && |handle.key.tag| == (if |tag| < tagSize then |tag| else tagSize - 1)
              && handle.tableNo == o.sign64(handle.key.tag) % m % o.tbNum
            case ByDbid(dbid) => handle.key == ByDbid(dbid) && handle.tableNo == 0
  {
    if !o.key.ByDbid? {
      RouteFormula(StoredKey(o.key, tagSize), o.sign64, o.dbNum, o.tbNum);
    }
    if o.key.ByTag? {
      ClipIsPrefix(o.key.tag, tagSize);
    }
  }

  /**
   The connection is taken before the counts are checked, so a constructor that does not complete
   keeps it for good: with a zero count, and with counts whose product is a multiple of 2^64,
   where the program stops.
   */
  lemma ConstructorLeaksIff(sys: System, h: nat, opening: Opening, proposal: Option<Conn>)
    requires SysInv(sys) && h !in sys.handles && !sys.stopped
    ensures var sys' := Step(sys, Construct(h, opening, proposal));
            && (sys'.leaked != sys.leaked <==> Granted(sys.server, proposal).Some? && !Completes(opening))
            && (sys'.stopped <==> Granted(sys.server, proposal).Some? && opening.buffers && !Completes(opening) &&
                                  opening.dbNum > 0 && opening.tbNum > 0)
  {
    OpenCompletesIff(sys.server, opening, sys.tagSize, proposal);
    var conn := Granted(sys.server, proposal);
    if conn.Some? {
      assert conn.value in Lend(sys.server, conn.value, opening.key).lent.Keys - sys.server.lent.Keys;
      assert conn.value !in sys.leaked;
    }
  }

  /** A run whose constructors all get usable counts and buffers leaks nothing and is never stopped. */
  lemma {:induction false} LeaksOnlyInConstructors(sys: System, calls: seq<Call>)
    ensures sys.leaked <= Steps(sys, calls).leaked
    ensures (forall i | 0 <= i < |calls| :: calls[i].Construct? ==> Completes(calls[i].opening)) ==>
              Steps(sys, calls).leaked == sys.leaked && Steps(sys, calls).stopped == sys.stopped
    decreases |calls|
  {
    if calls != [] {
      if calls[0].Construct? {
        OpenCompletesIff(sys.server, calls[0].opening, sys.tagSize, calls[0].proposal);
      }
      LeaksOnlyInConstructors(Step(sys, calls[0]), calls[1..]);
    }
  }
}
