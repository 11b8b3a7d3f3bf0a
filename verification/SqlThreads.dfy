/**
 Handles in different threads: the steps are single calls of the worker, so another
 handle may act in the middle of any call, for instance between the put-back
 and the refetch of _reset. The worker itself serves one call at a time.
 */
module SqlThreads {
  import opened Wrappers
  import opened SqlServer
  import opened TableRewrite
  import opened SqlHandle
  import opened SqlSystem
  import opened SqlCommits

  // ---------------------------------------------------------------------
  // A call, one use of the worker at a time
  // ---------------------------------------------------------------------

  /** What a handle has still to do in the call it is in. */
  datatype Rest =
    | Nothing
    | Starting(reply: Reply)                                    // start_transaction has rolled back
    | RollingBack(rollback: Reply, proposal: Option<Conn>)      // the statement of query_nothrow has failed
    | Releasing(proposal: Option<Conn>)                         // _reset has ended the transaction
    | Fetching(proposal: Option<Conn>)                          // _reset has put the connection back
    | Disposing                                                 // the destructor has rolled back

  datatype Progress = Progress(state: State, rest: Rest)

  function First(s: State, a: Action): Progress {
    match a
    case StartAction(rollback, reply) => Progress(EndTransaction(s, false, rollback), Starting(reply))
    case EndAction(commit, reply) => Progress(EndTransaction(s, commit, reply), Nothing)
    case QueryAction(sql, reply) => Progress(RunText(s, sql, reply), Nothing)
    case NothrowAction(sql, reply, rollback, proposal) =>
      Progress(Run(s, Text(Prepared(sql, s.handle.tableNo)), reply),
               if reply.Failed? then RollingBack(rollback, proposal) else Nothing)
    case CloseAction(rollback) => Progress(EndTransaction(s, false, rollback), Disposing)
  }

  function Next(s: State, rest: Rest): Progress {
    match rest
    case Nothing => Progress(s, Nothing)
    case Starting(reply) => Progress(BeginTransaction(s, reply), Nothing)
    case RollingBack(rollback, proposal) => Progress(EndTransaction(s, false, rollback), Releasing(proposal))
    case Releasing(proposal) => Progress(Release(s), Fetching(proposal))
    case Fetching(proposal) => Progress(Acquire(s, proposal), Nothing)
    case Disposing => Progress(Release(s), Nothing)
  }

  /** How many uses of the worker are left. */
  function Left(rest: Rest): nat {
    match rest
    case Nothing => 0
    case RollingBack(_, _) => 3
    case Releasing(_) => 2
    case _ => 1
  }

  function Finish(p: Progress): State
    decreases Left(p.rest)
  {
    if p.rest.Nothing? then p.state else Finish(Next(p.state, p.rest))
  }

  /** Undisturbed, the steps make up the call. */
  lemma CallIsItsSteps(s: State, a: Action)
    ensures Finish(First(s, a)) == Apply(s, a)
  {
    if a.NothrowAction? && a.reply.Failed? {
      var s1 := First(s, a).state;
      var s2 := EndTransaction(s1, false, a.rollback);
      var s3 := Release(s2);
      assert Finish(First(s, a)) == Finish(Progress(s2, Releasing(a.proposal)));
      assert Finish(Progress(s2, Releasing(a.proposal))) == Finish(Progress(s3, Fetching(a.proposal)));
      assert Finish(Progress(s3, Fetching(a.proposal))) == Acquire(s3, a.proposal);
    }
  }

  // ---------------------------------------------------------------------
  // In the middle of a call
  // ---------------------------------------------------------------------

  /** What the handle's fields say about where it is. */
  predicate Ready(h: Handle, rest: Rest) {
    match rest
    case Nothing => FailureNoted(h)
    case Starting(_) => FailureNoted(h) && !h.transactionOn
    case RollingBack(_, _) => true
    case Releasing(_) => !h.transactionOn
    case Fetching(_) => h.conn.None? && !h.transactionOn
    case Disposing => !h.transactionOn
  }

  /** A step leaves the handle ready for the next one and the other handles alone. */
  predicate Proceeds(s: State, p: Progress) {
    Core(p.state) && Ready(p.state.handle, p.rest) && Framed(s, p.state) && SameKeys(s, p.state)
  }

  lemma FirstProceeds(s: State, a: Action)
    requires Inv(s)
    ensures Proceeds(s, First(s, a))
  {
    match a
    case StartAction(rollback, _) => EndProceeds(s, false, rollback);
    case EndAction(commit, reply) => EndProceeds(s, commit, reply);
    case QueryAction(sql, reply) =>
      RunTextKeeps(s, sql, reply);
      RunFramed(s, Text(Prepared(sql, s.handle.tableNo)), reply);
      RunSameKeys(s, Text(Prepared(sql, s.handle.tableNo)), reply);
    case NothrowAction(sql, reply, _, _) => TextProceeds(s, sql, reply);
    case CloseAction(rollback) => EndProceeds(s, false, rollback);
  }

  lemma EndProceeds(s: State, commit: bool, reply: Reply)
    requires Core(s)
    ensures var s' := EndTransaction(s, commit, reply);
            && Core(s') && !s'.handle.transactionOn && (Inv(s) ==> Inv(s')) && Framed(s, s') && SameKeys(s, s')
  {
    EndTransactionKeeps(s, commit, reply);
    EndTransactionFramed(s, commit, reply);
    EndSameKeys(s, commit, reply);
  }

  lemma TextProceeds(s: State, sql: string, reply: Reply)
    requires Inv(s)
    ensures var s' := Run(s, Text(Prepared(sql, s.handle.tableNo)), reply);
            && Core(s') && (reply.Done? ==> Inv(s')) && Framed(s, s') && SameKeys(s, s')
  {
    RunFramed(s, Text(Prepared(sql, s.handle.tableNo)), reply);
    RunSameKeys(s, Text(Prepared(sql, s.handle.tableNo)), reply);
  }

  lemma ReleaseProceeds(s: State)
    requires Core(s) && !s.handle.transactionOn
    ensures var s' := Release(s);
            Inv(s') && s'.handle.conn.None? && !s'.handle.transactionOn && Framed(s, s') && SameKeys(s, s')
  {
    ReleaseKeeps(s);
    ReleaseFramed(s);
  }

  lemma NextProceeds(s: State, rest: Rest)
    requires Core(s) && Ready(s.handle, rest) && !rest.Nothing?
    ensures Proceeds(s, Next(s, rest))
    ensures rest.Disposing? ==> Release(s).handle.conn.None? && !Release(s).handle.transactionOn
  {
    match rest
    case Starting(reply) =>
      BeginTransactionKeeps(s, reply);
      BeginTransactionFramed(s, reply);
      RunSameKeys(s, StartTransaction, reply);
    case RollingBack(rollback, _) => EndProceeds(s, false, rollback);
    case Releasing(_) => ReleaseProceeds(s);
    case Fetching(proposal) =>
      AcquireKeeps(s, proposal);
      AcquireFramed(s, proposal);
    case Disposing => ReleaseProceeds(s);
  }

  // ---------------------------------------------------------------------
  // Schedules
  // ---------------------------------------------------------------------

  /** doing: what is left of the calls that handles are in. */
  datatype Threads = Threads(sys: System, doing: map<nat, Rest>)

  datatype Move =
    | Make(h: nat, opening: Opening, proposal: Option<Conn>)
    | Begin(h: nat, action: Action)
    | Continue(h: nat)

  function Doing(th: Threads, h: nat): Rest {
    if h in th.doing then th.doing[h] else Nothing
  }

  function StateOf(th: Threads, h: nat): State
    requires h in th.sys.handles
  {
    State(th.sys.server, th.sys.handles[h])
  }

  /** A move that cannot be made changes nothing. */
  predicate Enabled(th: Threads, move: Move) {
    && !th.sys.stopped
    && (!move.Make? ==> move.h in th.sys.handles && (move.Begin? <==> Doing(th, move.h).Nothing?))
  }

  function Advance(th: Threads, move: Move): Threads {
    if !Enabled(th, move) then th
    else
      match move
      case Make(h, opening, proposal) => th.(sys := Step(th.sys, Construct(h, opening, proposal)))
      case Begin(h, action) => Moved(th, h, First(StateOf(th, h), action))
      case Continue(h) =>
        if Doing(th, h).Disposing? then Disposed(th, h, Release(StateOf(th, h)))
        else Moved(th, h, Next(StateOf(th, h), Doing(th, h)))
  }

  function Moved(th: Threads, h: nat, p: Progress): Threads {
    Threads(th.sys.(server := p.state.server, handles := th.sys.handles[h := p.state.handle]), th.doing[h := p.rest])
  }

  function Disposed(th: Threads, h: nat, s: State): Threads {
    Threads(th.sys.(server := s.server, handles := th.sys.handles - {h}, closed := th.sys.closed + [s.handle.log]),
            th.doing - {h})
  }

  function Advances(th: Threads, moves: seq<Move>): Threads
    decreases |moves|
  {
    if moves == [] then th else Advances(Advance(th, moves[0]), moves[1..])
  }

  predicate AllReady(th: Threads) {
    forall h | h in th.sys.handles :: Ready(th.sys.handles[h], Doing(th, h))
  }

  predicate Orderly(th: Threads) {
    SysCore(th.sys) && AllReady(th) && th.doing.Keys <= th.sys.handles.Keys
  }

  lemma MovedOrderly(th: Threads, h: nat, p: Progress)
    requires Orderly(th) && h in th.sys.handles && Proceeds(StateOf(th, h), p)
    ensures Orderly(Moved(th, h, p))
  {
    MoveKeeps(th.sys, h, p.state, th.sys.handles[h := p.state.handle]);
  }

  lemma DisposedOrderly(th: Threads, h: nat, s: State)
    requires Orderly(th) && h in th.sys.handles && Core(s) && Framed(StateOf(th, h), s) && SameKeys(StateOf(th, h), s)
    requires s.handle.conn.None? && !s.handle.transactionOn
    ensures Orderly(Disposed(th, h, s))
  {
    MoveKeeps(th.sys, h, s, th.sys.handles - {h});
    CloseKeeps(th.sys.(server := s.server, handles := th.sys.handles - {h}), s.handle);
    DisposedReady(th, h, s);
  }

  lemma DisposedReady(th: Threads, h: nat, s: State)
    requires AllReady(th)
    ensures AllReady(Disposed(th, h, s))
  {
  }

  lemma AddedReady(th: Threads, h: nat, o: Opened)
    requires AllReady(th) && h !in th.doing && (o.result.Ok? ==> FailureNoted(o.result.value))
    ensures AllReady(th.(sys := AddHandle(th.sys, h, o)))
  {
  }

  lemma MadeOrderly(th: Threads, h: nat, opening: Opening, proposal: Option<Conn>)
    requires Orderly(th)
    ensures Orderly(th.(sys := Step(th.sys, Construct(h, opening, proposal))))
  {
    ConstructCore(th.sys, h, opening, proposal);
    if h !in th.sys.handles && !th.sys.stopped {
      if Granted(th.sys.server, proposal).Some? {
        OpenedInOrder(th.sys.server, opening, th.sys.tagSize, proposal.value);
      }
      AddedReady(th, h, Open(th.sys.server, opening, th.sys.tagSize, proposal));
    }
  }

  lemma AdvanceOrderly(th: Threads, move: Move)
    requires Orderly(th)
    ensures Orderly(Advance(th, move)) && Advance(th, move).sys.tagSize == th.sys.tagSize
  {
    if Enabled(th, move) {
      match move
      case Make(h, opening, proposal) => MadeOrderly(th, h, opening, proposal);
      case Begin(h, action) =>
        FirstProceeds(StateOf(th, h), action);
        MovedOrderly(th, h, First(StateOf(th, h), action));
      case Continue(h) =>
        NextProceeds(StateOf(th, h), Doing(th, h));
        if Doing(th, h).Disposing? {
          DisposedOrderly(th, h, Release(StateOf(th, h)));
        } else {
          MovedOrderly(th, h, Next(StateOf(th, h), Doing(th, h)));
        }
    }
  }

  /** Under every schedule: the system is in order at every moment. */
  lemma {:induction false} EveryScheduleSafe(th: Threads, moves: seq<Move>)
    requires Orderly(th)
    ensures Orderly(Advances(th, moves)) && Advances(th, moves).sys.tagSize == th.sys.tagSize
    decreases |moves|
  {
    if moves != [] {
      AdvanceOrderly(th, moves[0]);
      EveryScheduleSafe(Advance(th, moves[0]), moves[1..]);
    }
  }

  predicate AtRest(th: Threads) {
    forall h | h in th.doing :: th.doing[h].Nothing?
  }

  /**
   From an idle worker, at any moment of any schedule: no connection in the pool carries a
   transaction, no connection has two holders, destroyed handles are balanced, and with no handle
   left only leaked connections are lent out; and while no handle is in a call, the full
   invariant of the calls holds.
   */
  lemma EveryScheduleFromStart(tagSize: TagSize, moves: seq<Move>)
    ensures var th := Advances(Threads(Idle(tagSize), map[]), moves);
            && SysCore(th.sys)
            && (forall c: Conn | c !in th.sys.server.lent :: SessionOf(th.sys.server, c) == IDLE)
            && (th.sys.handles == map[] ==> th.sys.server.lent.Keys == th.sys.leaked)
            && (forall i | 0 <= i < |th.sys.closed| :: Balanced(th.sys.closed[i], tagSize))
            && (AtRest(th) ==> SysInv(th.sys))
  {
    var start := Threads(Idle(tagSize), map[]);
    EveryScheduleSafe(start, moves);
    var th := Advances(start, moves);
    forall i | 0 <= i < |th.sys.closed| ensures Balanced(th.sys.closed[i], tagSize) {
      FinishedIsBalanced(th.sys.closed[i], tagSize);
    }
    if AtRest(th) {
      forall h | h in th.sys.handles ensures FailureNoted(th.sys.handles[h]) {
        assert Ready(th.sys.handles[h], Doing(th, h));
      }
    }
  }

  // ---------------------------------------------------------------------
  // Runs of whole calls are schedules
  // ---------------------------------------------------------------------

  function MovesOf(call: Call): seq<Move> {
    match call
    case Construct(h, opening, proposal) => [Make(h, opening, proposal)]
    case Use(h, a) =>
      match a
      case StartAction(_, _) => [Begin(h, a), Continue(h)]
      case CloseAction(_) => [Begin(h, a), Continue(h)]
      case NothrowAction(_, reply, _, _) =>
        if reply.Failed? then [Begin(h, a), Continue(h), Continue(h), Continue(h)] else [Begin(h, a)]
      case _ => [Begin(h, a)]
  }

  lemma OneMove(th: Threads, a: Move)
    ensures Advances(th, [a]) == Advance(th, a)
  {
    assert [a][1..] == [];
    assert Advances(Advance(th, a), []) == Advance(th, a);
  }

  lemma TwoMoves(th: Threads, a: Move, b: Move)
    ensures Advances(th, [a, b]) == Advance(Advance(th, a), b)
  {
    assert [a, b][1..] == [b];
    OneMove(Advance(th, a), b);
  }

  lemma FourMoves(th: Threads, a: Move, b: Move, c: Move, d: Move)
    ensures Advances(th, [a, b, c, d]) == Advance(Advance(Advance(Advance(th, a), b), c), d)
  {
    var th1 := Advance(th, a);
    assert [a, b, c, d][1..] == [b, c, d];
    assert Advances(th, [a, b, c, d]) == Advances(th1, [b, c, d]);
    assert [b, c, d][1..] == [c, d];
    assert Advances(th1, [b, c, d]) == Advances(Advance(th1, b), [c, d]);
    TwoMoves(Advance(th1, b), c, d);
  }

  /** The system after a call undisturbed by others. */
  predicate CallDone(th: Threads, call: Call, th': Threads) {
    th'.sys == Step(th.sys, call) && AtRest(th')
  }

  lemma IdleCall(th: Threads, call: Call)
    requires call.Use? && (th.sys.stopped || call.h !in th.sys.handles)
    ensures Advances(th, MovesOf(call)) == th && Step(th.sys, call) == th.sys
  {
    var b, c := Begin(call.h, call.action), Continue(call.h);
    OneMove(th, b);
    TwoMoves(th, b, c);
    FourMoves(th, b, c, c, c);
  }

  lemma MovedAgain(th: Threads, h: nat, p: Progress, q: Progress)
    ensures Moved(Moved(th, h, p), h, q) == Moved(th, h, q)
  {
  }

  /** A handle that goes on undisturbed. */
  lemma GoesOn(th: Threads, h: nat, p: Progress)
    requires h in th.sys.handles && !th.sys.stopped && !p.rest.Nothing? && !p.rest.Disposing?
    ensures Advance(Moved(th, h, p), Continue(h)) == Moved(th, h, Next(p.state, p.rest))
  {
    assert StateOf(Moved(th, h, p), h) == p.state;
    MovedAgain(th, h, p, Next(p.state, p.rest));
  }

  lemma NothrowIsSchedule(th: Threads, h: nat, a: Action)
    requires AtRest(th) && h in th.sys.handles && !th.sys.stopped && a.NothrowAction? && a.reply.Failed?
    ensures CallDone(th, Use(h, a), Advances(th, MovesOf(Use(h, a))))
  {
    var p1 := First(StateOf(th, h), a);
    var p2 := Next(p1.state, p1.rest);
    var p3 := Next(p2.state, p2.rest);
    var p4 := Next(p3.state, p3.rest);
    FourMoves(th, Begin(h, a), Continue(h), Continue(h), Continue(h));
    BeginsMoved(th, h, a);
    GoesOn(th, h, p1);
    GoesOn(th, h, p2);
    GoesOn(th, h, p3);
    assert p4 == Progress(Apply(StateOf(th, h), a), Nothing);
    MovedIsStep(th, h, a);
  }

  lemma BeginsMoved(th: Threads, h: nat, a: Action)
    requires AtRest(th) && h in th.sys.handles && !th.sys.stopped
    ensures Advance(th, Begin(h, a)) == Moved(th, h, First(StateOf(th, h), a))
  {
  }

  lemma MovedIsStep(th: Threads, h: nat, a: Action)
    requires AtRest(th) && h in th.sys.handles && !th.sys.stopped && !a.CloseAction?
    ensures CallDone(th, Use(h, a), Moved(th, h, Progress(Apply(StateOf(th, h), a), Nothing)))
  {
  }

  lemma StartIsSchedule(th: Threads, h: nat, a: Action)
    requires AtRest(th) && h in th.sys.handles && !th.sys.stopped && a.StartAction?
    ensures CallDone(th, Use(h, a), Advances(th, MovesOf(Use(h, a))))
  {
    TwoMoves(th, Begin(h, a), Continue(h));
    BeginsMoved(th, h, a);
    GoesOn(th, h, First(StateOf(th, h), a));
    MovedIsStep(th, h, a);
  }

  lemma CloseIsSchedule(th: Threads, h: nat, a: Action)
    requires AtRest(th) && h in th.sys.handles && !th.sys.stopped && a.CloseAction?
    ensures CallDone(th, Use(h, a), Advances(th, MovesOf(Use(h, a))))
  {
    TwoMoves(th, Begin(h, a), Continue(h));
    BeginsMoved(th, h, a);
    var th1 := Moved(th, h, First(StateOf(th, h), a));
    assert StateOf(th1, h) == First(StateOf(th, h), a).state;
    assert th1.sys.handles - {h} == th.sys.handles - {h};
  }

  lemma CallIsSchedule(th: Threads, call: Call)
    requires AtRest(th)
    ensures CallDone(th, call, Advances(th, MovesOf(call)))
  {
    match call
    case Construct(h, opening, proposal) => OneMove(th, Make(h, opening, proposal));
    case Use(h, a) =>
      if th.sys.stopped || h !in th.sys.handles {
        IdleCall(th, call);
      } else if a.NothrowAction? && a.reply.Failed? {
        NothrowIsSchedule(th, h, a);
      } else if a.StartAction? {
        StartIsSchedule(th, h, a);
      } else if a.CloseAction? {
        CloseIsSchedule(th, h, a);
      } else {
        OneMove(th, Begin(h, a));
        BeginsMoved(th, h, a);
        MovedIsStep(th, h, a);
      }
  }

  function ScheduleOf(calls: seq<Call>): seq<Move> {
    if calls == [] then [] else MovesOf(calls[0]) + ScheduleOf(calls[1..])
  }

  lemma {:induction false} AdvancesAppend(th: Threads, a: seq<Move>, b: seq<Move>)
    ensures Advances(th, a + b) == Advances(Advances(th, a), b)
    decreases |a|
  {
    if a == [] {
      assert a + b == b;
    } else {
      assert (a + b)[1..] == a[1..] + b;
      AdvancesAppend(Advance(th, a[0]), a[1..], b);
    }
  }

  /** Every run of whole calls is a schedule, so what holds under all schedules holds of all runs. */
  lemma {:induction false} RunIsSchedule(th: Threads, calls: seq<Call>)
    requires AtRest(th)
    ensures Advances(th, ScheduleOf(calls)).sys == Steps(th.sys, calls) && AtRest(Advances(th, ScheduleOf(calls)))
    decreases |calls|
  {
    if calls != [] {
      CallIsSchedule(th, calls[0]);
      AdvancesAppend(th, MovesOf(calls[0]), ScheduleOf(calls[1..]));
      RunIsSchedule(Advances(th, MovesOf(calls[0])), calls[1..]);
    }
  }

  // ---------------------------------------------------------------------
  // Where committed data comes from
  // ---------------------------------------------------------------------

  /** start_transaction begins with a rollback, which commits nothing. */
  function AddedFirst(s: State, a: Action): seq<Entry> {
    if a.StartAction? then [] else Added(s, a)
  }

  function AddedNext(s: State, rest: Rest): seq<Entry> {
    if rest.Starting? && s.handle.conn.Some? && TakesEffect(rest.reply) then
      Each(SessionOf(s.server, s.handle.conn.value).pending, Swept(TrackOf(s.handle.log).cause))
    else []
  }

  function AddedIn(th: Threads, move: Move): seq<Entry> {
    if !Enabled(th, move) || move.Make? then []
    else if move.Begin? then AddedFirst(StateOf(th, move.h), move.action)
    else AddedNext(StateOf(th, move.h), Doing(th, move.h))
  }

  lemma FirstBooks(s: State, a: Action)
    requires Inv(s)
    ensures Books(s, First(s, a).state, AddedFirst(s, a))
  {
    match a
    case StartAction(rollback, _) => ResetBooks(s, rollback, None);
    case EndAction(commit, reply) => EndBooks(s, commit, reply);
    case QueryAction(sql, reply) => TextBooks(s, sql, reply);
    case NothrowAction(sql, reply, _, _) => TextBooks(s, sql, reply);
    case CloseAction(rollback) => ResetBooks(s, rollback, None);
  }

  lemma NextBooks(s: State, rest: Rest)
    requires Core(s) && Ready(s.handle, rest)
    ensures Books(s, Next(s, rest).state, AddedNext(s, rest))
  {
    match rest
    case Starting(reply) => BeginBooks(s, reply);
    case RollingBack(rollback, _) => ResetBooks(s, rollback, None);
    case _ =>
  }

  lemma BeginBooks(s: State, reply: Reply)
    requires Agrees(s.handle) && SessionMatches(s.server, s.handle)
    ensures Books(s, BeginTransaction(s, reply), AddedNext(s, Starting(reply)))
  {
    RunBooks(s, StartTransaction, reply);
    EachOfNone(Swept(TrackOf(s.handle.log).cause));
  }

  lemma AdvanceCommits(th: Threads, move: Move)
    requires Orderly(th)
    ensures Advance(th, move).sys.server.committed == th.sys.server.committed + Texts(AddedIn(th, move))
  {
    if Enabled(th, move) {
      match move
      case Make(h, opening, proposal) =>
      case Begin(h, action) => FirstBooks(StateOf(th, h), action);
      case Continue(h) => NextBooks(StateOf(th, h), Doing(th, h));
    }
  }

  /** Everything committed under a schedule, in order. */
  function ScheduleLedger(th: Threads, moves: seq<Move>): seq<Entry>
    decreases |moves|
  {
    if moves == [] then [] else AddedIn(th, moves[0]) + ScheduleLedger(Advance(th, moves[0]), moves[1..])
  }

  lemma {:induction false} EveryScheduleBooked(th: Threads, moves: seq<Move>)
    requires Orderly(th)
    ensures Advances(th, moves).sys.server.committed == th.sys.server.committed + Texts(ScheduleLedger(th, moves))
    decreases |moves|
  {
    if moves != [] {
      var th1 := Advance(th, moves[0]);
      AdvanceCommits(th, moves[0]);
      AdvanceOrderly(th, moves[0]);
      EveryScheduleBooked(th1, moves[1..]);
      TextsAppend(th.sys.server.committed, AddedIn(th, moves[0]), ScheduleLedger(th1, moves[1..]));
    }
  }

  /** The move accounts for the entry; only the second half of start_transaction sweeps up. */
  predicate ExplainedIn(th: Threads, move: Move, e: Entry) {
    && !move.Make? && move.h in th.sys.handles
    && var s := StateOf(th, move.h);
       if move.Begin? then !e.origin.Swept? && Explained(s, move.action, e)
       else Doing(th, move.h).Starting? && SweptUp(s, e)
  }

  predicate SweptUp(s: State, e: Entry) {
    && s.handle.conn.Some? && !s.handle.transactionOn && RanText(s.handle.log, s.handle.conn.value, e.text)
    && e.origin.Swept? && e.origin.cause.Some?
    && Stranding(e.origin.cause.value) && e.origin.cause.value.target == s.handle.conn
    && Logged(s.handle.log, e.origin.cause.value)
  }

  lemma NextExplained(s: State, rest: Rest, e: Entry)
    requires Core(s) && Ready(s.handle, rest) && e in AddedNext(s, rest)
    ensures rest.Starting? && SweptUp(s, e)
  {
    LogFacts(s.handle.log);
    assert e.text in TrackOf(s.handle.log).session.pending;
  }

  lemma MoveExplained(th: Threads, move: Move, e: Entry)
    requires Orderly(th) && e in AddedIn(th, move)
    ensures ExplainedIn(th, move, e)
  {
    if move.Begin? {
      AddedExplained(StateOf(th, move.h), move.action, e);
    } else {
      NextExplained(StateOf(th, move.h), Doing(th, move.h), e);
    }
  }

  /** Entry k of the schedule's ledger is an entry of move i, at the place it has among those of the move. */
  predicate CommittedAt(th: Threads, moves: seq<Move>, k: nat, i: nat)
    requires k < |ScheduleLedger(th, moves)| && i < |moves|
  {
    var before, added := |ScheduleLedger(th, moves[..i])|, AddedIn(Advances(th, moves[..i]), moves[i]);
    before <= k < before + |added| && ScheduleLedger(th, moves)[k] == added[k - before]
  }

  /** Every text committed under any schedule was committed by one use of the worker, which accounts for it. */
  lemma {:induction false} EveryScheduleExplained(th: Threads, moves: seq<Move>, k: nat) returns (i: nat)
    requires Orderly(th) && k < |ScheduleLedger(th, moves)|
    ensures i < |moves| && CommittedAt(th, moves, k, i)
    ensures ExplainedIn(Advances(th, moves[..i]), moves[i], ScheduleLedger(th, moves)[k])
    decreases |moves|
  {
    var here := AddedIn(th, moves[0]);
    if k < |here| {
      i := 0;
      ByFirstMove(th, moves, k);
    } else {
      AdvanceOrderly(th, moves[0]);
      var j := EveryScheduleExplained(Advance(th, moves[0]), moves[1..], k - |here|);
      i := j + 1;
      OneMoveEarlier(th, moves, k, j);
    }
  }

  lemma ByFirstMove(th: Threads, moves: seq<Move>, k: nat)
    requires Orderly(th) && moves != [] && k < |AddedIn(th, moves[0])|
    ensures Advances(th, moves[..0]) == th
    ensures CommittedAt(th, moves, k, 0) && ExplainedIn(th, moves[0], ScheduleLedger(th, moves)[k])
  {
    assert moves[..0] == [];
    MoveExplained(th, moves[0], AddedIn(th, moves[0])[k]);
  }

  /** What move j does in the schedule without its first move, move j + 1 does in the whole one. */
  lemma OneMoveEarlier(th: Threads, moves: seq<Move>, k: nat, j: nat)
    requires j + 1 < |moves| && |AddedIn(th, moves[0])| <= k < |ScheduleLedger(th, moves)|
    requires CommittedAt(Advance(th, moves[0]), moves[1..], k - |AddedIn(th, moves[0])|, j)
    ensures CommittedAt(th, moves, k, j + 1)
    ensures Advances(th, moves[..j + 1]) == Advances(Advance(th, moves[0]), moves[1..][..j])
    ensures ScheduleLedger(th, moves)[k] ==
            ScheduleLedger(Advance(th, moves[0]), moves[1..])[k - |AddedIn(th, moves[0])|]
  {
    SchedulePrefix(th, moves, j);
    Shifted(AddedIn(th, moves[0]), ScheduleLedger(Advance(th, moves[0]), moves[1..]), k);
  }

  lemma SchedulePrefix(th: Threads, moves: seq<Move>, j: nat)
    requires j < |moves|
    ensures Advances(th, moves[..j + 1]) == Advances(Advance(th, moves[0]), moves[1..][..j])
    ensures |ScheduleLedger(th, moves[..j + 1])| ==
            |AddedIn(th, moves[0])| + |ScheduleLedger(Advance(th, moves[0]), moves[1..][..j])|
  {
    assert moves[..j + 1][0] == moves[0] && moves[..j + 1][1..] == moves[1..][..j];
  }

  // ---------------------------------------------------------------------
  // When nothing is committed unasked
  // ---------------------------------------------------------------------

  /** Session and handle disagree only where the connection is about to be given up. */
  predicate Aligned(h: Handle, rest: Rest) {
    match rest
    case RollingBack(_, _) => true
    case Releasing(_) => true
    case Disposing => true
    case Starting(reply) => TrackOf(h.log).cause.None? && !(reply.Failed? && reply.effect.Executed?)
    case _ => TrackOf(h.log).cause.None?
  }

  predicate AllAligned(th: Threads) {
    forall h | h in th.sys.handles :: Aligned(th.sys.handles[h], Doing(th, h))
  }

  lemma FirstAligned(s: State, a: Action)
    requires Inv(s) && TrackOf(s.handle.log).cause.None? && Harmless(a)
    ensures Aligned(First(s, a).state.handle, First(s, a).rest)
    ensures forall e | e in AddedFirst(s, a) :: Wanted(e)
  {
    LogFacts(s.handle.log);
    HarmlessKeeps(s, a);
    match a
    case StartAction(rollback, _) => HarmlessEnd(s, false, rollback);
    case EndAction(commit, reply) => HarmlessEnd(s, commit, reply);
    case QueryAction(sql, reply) => HarmlessText(s, sql, reply);
    case NothrowAction(sql, reply, _, _) => HarmlessText(s, sql, reply);
    case CloseAction(_) =>
  }

  lemma NextAligned(s: State, rest: Rest)
    requires Core(s) && Ready(s.handle, rest) && Aligned(s.handle, rest) && !rest.Nothing?
    ensures Aligned(Next(s, rest).state.handle, Next(s, rest).rest)
    ensures AddedNext(s, rest) == []
  {
    LogFacts(s.handle.log);
    NextProceeds(s, rest);
    LogFacts(Next(s, rest).state.handle.log);
    EachOfNone(Swept(TrackOf(s.handle.log).cause));
  }

  lemma MovedAligned(th: Threads, h: nat, p: Progress)
    requires AllAligned(th) && h in th.sys.handles && Aligned(p.state.handle, p.rest)
    ensures AllAligned(Moved(th, h, p))
  {
  }

  lemma MadeAligned(th: Threads, h: nat, opening: Opening, proposal: Option<Conn>)
    requires Orderly(th) && AllAligned(th)
    ensures AllAligned(th.(sys := Step(th.sys, Construct(h, opening, proposal))))
  {
    OpenInStep(th.sys.server, opening, th.sys.tagSize, proposal);
  }

  lemma AdvanceAligned(th: Threads, move: Move)
    requires Orderly(th) && AllAligned(th) && (move.Begin? ==> Harmless(move.action))
    ensures AllAligned(Advance(th, move))
    ensures forall e | e in AddedIn(th, move) :: Wanted(e)
  {
    if Enabled(th, move) {
      match move
      case Make(h, opening, proposal) => MadeAligned(th, h, opening, proposal);
      case Begin(h, action) =>
        FirstAligned(StateOf(th, h), action);
        MovedAligned(th, h, First(StateOf(th, h), action));
      case Continue(h) =>
        NextAligned(StateOf(th, h), Doing(th, h));
        if !Doing(th, h).Disposing? {
          MovedAligned(th, h, Next(StateOf(th, h), Doing(th, h)));
        }
    }
  }

  /** Under every schedule in which all failures are harmless, only what is asked for is committed. */
  lemma {:induction false} OnlyWantedUnderSchedules(th: Threads, moves: seq<Move>)
    requires Orderly(th) && AllAligned(th)
    requires forall i | 0 <= i < |moves| :: moves[i].Begin? ==> Harmless(moves[i].action)
    ensures forall e | e in ScheduleLedger(th, moves) :: Wanted(e)
    decreases |moves|
  {
    if moves != [] {
      AdvanceOrderly(th, moves[0]);
      AdvanceAligned(th, moves[0]);
      OnlyWantedUnderSchedules(Advance(th, moves[0]), moves[1..]);
    }
  }
}
