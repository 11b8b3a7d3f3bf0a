/**
 Where committed data comes from, over whole runs and with failures anywhere: a
 log determines the session behind its connection and everything it committed, and
 every committed text is accounted for by the call that committed it.
 */
module SqlCommits {
  import opened Wrappers
  import opened SqlServer
  import opened TableRewrite
  import opened SqlHandle
  import opened SqlSystem

  // ---------------------------------------------------------------------
  // What a log says about its session
  // ---------------------------------------------------------------------

  predicate Logged(log: Log, e: Event) {
    log.Snoc? && (log.last == e || Logged(log.before, e))
  }

  /** The text was run on connection c and took effect. */
  predicate RanText(log: Log, c: Conn, text: string) {
    && log.Snoc?
    && ((log.last.Ran? && log.last.target == Some(c) && log.last.stmt == Text(text) && TakesEffect(log.last.reply))
        || RanText(log.before, c, text))
  }

  /** Leaves a session open that the handle takes for closed. */
  predicate Stranding(e: Event) {
    && e.Ran? && e.reply.Failed?
    && match e.stmt
       case StartTransaction => e.reply.effect.Executed?
       case Text(_) => false
       case _ => e.reply.effect.Ignored?
  }

  /** Closes a session that the handle takes for open. */
  predicate Dropping(e: Event) {
    e.Ran? && e.reply.Failed? && e.stmt.Text? && e.reply.effect.Aborted?
  }

  /** Session and handle disagree exactly since some statement failed in one of these two ways. */
  predicate CauseKnown(t: Track) {
    && (t.cause.Some? <==> t.held.Some? && t.session.open != t.on)
    && (t.cause.Some? ==>
          && t.failed && t.cause.value.Ran? && t.cause.value.target == HeldConn(t)
          && if t.session.open then Stranding(t.cause.value) else Dropping(t.cause.value))
  }

  predicate CauseLogged(log: Log, t: Track) {
    t.cause.Some? ==> Logged(log, t.cause.value)
  }

  predicate PendingKnown(log: Log, t: Track) {
    && (t.held.None? ==> t.session == IDLE)
    && (!t.session.open ==> t.session.pending == [])
    && (forall x | x in t.session.pending :: t.held.Some? && RanText(log, t.held.value.0, x))
  }

  lemma {:induction false} LogFacts(log: Log)
    requires TrackOf(log).ok
    ensures CauseKnown(TrackOf(log)) && CauseLogged(log, TrackOf(log)) && PendingKnown(log, TrackOf(log))
  {
    if log.Snoc? {
      OkBefore(log);
      LogFacts(log.before);
      CauseStep(TrackOf(log.before), log.last);
      CauseLoggedStep(log);
      PendingStep(log);
    }
  }

  lemma OkBefore(log: Log)
    requires log.Snoc?
    ensures TrackOf(log) == Observe(TrackOf(log.before), log.last)
    ensures TrackOf(log).ok ==> TrackOf(log.before).ok
  {
  }

  lemma CauseLoggedStep(log: Log)
    requires log.Snoc? && CauseLogged(log.before, TrackOf(log.before))
    ensures CauseLogged(log, TrackOf(log))
  {
    OkBefore(log);
    CauseIsOldOrNew(TrackOf(log.before), log.last);
  }

  lemma CauseIsOldOrNew(t: Track, e: Event)
    ensures var cause := Observe(t, e).cause;
            cause.None? || cause == t.cause || cause == Some(e)
  {
  }

  lemma CauseStep(t: Track, e: Event)
    requires CauseKnown(t) && Observe(t, e).ok
    ensures CauseKnown(Observe(t, e))
  {
    if e.Ran? && e.target.Some? {
      match e.stmt
      case Text(_) => CauseAfterText(t, e);
      case StartTransaction =>
      case _ => CauseAfterEnd(t, e);
    }
  }

  lemma CauseAfterText(t: Track, e: Event)
    requires CauseKnown(t) && Observe(t, e).ok && e.Ran? && e.target.Some? && e.stmt.Text?
    ensures CauseKnown(Observe(t, e))
  {
  }

  lemma CauseAfterEnd(t: Track, e: Event)
    requires CauseKnown(t) && Observe(t, e).ok && e.Ran? && e.target.Some? && (e.stmt.Commit? || e.stmt.Rollback?)
    ensures CauseKnown(Observe(t, e))
  {
  }

  lemma PendingStep(log: Log)
    requires log.Snoc? && TrackOf(log).ok && PendingKnown(log.before, TrackOf(log.before))
    ensures PendingKnown(log, TrackOf(log))
  {
    var t, t' := TrackOf(log.before), TrackOf(log);
    SessionStep(t, log.last);
    forall x | x in t'.session.pending ensures t'.held.Some? && RanText(log, t'.held.value.0, x) {
      if x in t.session.pending {
        assert RanText(log.before, t.held.value.0, x);
      }
    }
  }

  lemma SessionStep(t: Track, e: Event)
    requires Observe(t, e).ok && (t.held.None? ==> t.session == IDLE) && (!t.session.open ==> t.session.pending == [])
    ensures var t' := Observe(t, e);
            && (t'.held.None? ==> t'.session == IDLE) && (!t'.session.open ==> t'.session.pending == [])
            && (forall x | x in t'.session.pending ::
                  && t'.held.Some? && t'.held == t.held
                  && (x in t.session.pending ||
                      (e.Ran? && e.target == HeldConn(t') && e.stmt == Text(x) && TakesEffect(e.reply))))
  {
    var t' := Observe(t, e);
    if e.Ran? && e.target.Some? {
      assert t'.session == After(t.session, e.stmt, e.reply);
    }
  }

  // ---------------------------------------------------------------------
  // What each operation commits
  // ---------------------------------------------------------------------

  /** Rolling back, returning and destroying never commit, in any state whatever. */
  lemma ReleasingNeverCommits(s: State, reply: Reply, proposal: Option<Conn>)
    ensures EndTransaction(s, false, reply).server.committed == s.server.committed
    ensures Reset(s, false, reply, proposal).server.committed == s.server.committed
    ensures Destroy(s, reply).server.committed == s.server.committed
  {
  }

  /** START TRANSACTION commits what it finds pending, in any state whatever, unless it was rolled back before. */
  lemma StartCommitsIff(s: State, rollback: Reply, reply: Reply)
    requires s.handle.conn.Some?
    ensures var pending := SessionOf(s.server, s.handle.conn.value).pending;
            Start(s, rollback, reply).server.committed != s.server.committed <==>
            && pending != [] && TakesEffect(reply)
            && (s.handle.transactionOn ==> rollback.Failed? && rollback.effect.Ignored?)
  {
    var sv := EndTransaction(s, false, rollback).server;
    assert sv.committed == s.server.committed;
    assert Start(s, rollback, reply).server.committed ==
           sv.committed + Committing(SessionOf(sv, s.handle.conn.value), StartTransaction, reply);
  }

  /** What an action adds to the committed data, and why. */
  function Added(s: State, a: Action): seq<Entry> {
    if s.handle.conn.None? then []
    else
      var session, on := SessionOf(s.server, s.handle.conn.value), s.handle.transactionOn;
      var cause := TrackOf(s.handle.log).cause;
      match a
      case QueryAction(sql, reply) => AddedByText(s, sql, reply)
      case NothrowAction(sql, reply, _, _) => AddedByText(s, sql, reply)
      case EndAction(commit, reply) =>
        if commit && on && TakesEffect(reply) then Each(session.pending, Requested) else []
      case StartAction(rollback, reply) =>
        if !TakesEffect(reply) then []
        else if !on then Each(session.pending, Swept(cause))
        else if rollback.Failed? && rollback.effect.Ignored? then
          Each(session.pending, Swept(Some(Ran(s.handle.conn, Rollback, rollback))))
        else []
      case CloseAction(_) => []
  }

  function AddedByText(s: State, sql: string, reply: Reply): seq<Entry>
    requires s.handle.conn.Some?
  {
    if !TakesEffect(reply) || SessionOf(s.server, s.handle.conn.value).open then []
    else [Entry(Prepared(sql, s.handle.tableNo),
                if s.handle.transactionOn then Orphaned(TrackOf(s.handle.log).cause) else Outside)]
  }

  /** The ledger of the log and the data of the server grow by the same entries. */
  predicate Books(s: State, s': State, entries: seq<Entry>) {
    && TrackOf(s'.handle.log).ledger == TrackOf(s.handle.log).ledger + entries
    && s'.server.committed == s.server.committed + Texts(entries)
  }

  lemma TextsAppend(before: seq<string>, x: seq<Entry>, y: seq<Entry>)
    ensures before + Texts(x) + Texts(y) == before + Texts(x + y)
  {
    assert Texts(x + y) == Texts(x) + Texts(y);
  }

  lemma BooksThen(a: State, b: State, c: State, x: seq<Entry>, y: seq<Entry>)
    requires Books(a, b, x) && Books(b, c, y)
    ensures Books(a, c, x + y)
  {
    TextsAppend(a.server.committed, x, y);
  }

  lemma RunBooks(s: State, stmt: Stmt, reply: Reply)
    requires Agrees(s.handle) && SessionMatches(s.server, s.handle)
    ensures var t := TrackOf(s.handle.log);
            Books(s, Run(s, stmt, reply),
                  if s.handle.conn.None? then [] else Each(Committing(t.session, stmt, reply), OriginOf(t, stmt)))
  {
    var t := TrackOf(s.handle.log);
    assert Texts(Each(Committing(t.session, stmt, reply), OriginOf(t, stmt))) == Committing(t.session, stmt, reply);
  }

  lemma EndBooks(s: State, commit: bool, reply: Reply)
    requires Agrees(s.handle) && SessionMatches(s.server, s.handle)
    ensures Books(s, EndTransaction(s, commit, reply), Added(s, EndAction(commit, reply)))
  {
    if s.handle.transactionOn {
      RunBooks(s, if commit then Commit else Rollback, reply);
    }
  }

  lemma TextBooks(s: State, sql: string, reply: Reply)
    requires Agrees(s.handle) && SessionMatches(s.server, s.handle)
    ensures Books(s, Run(s, Text(Prepared(sql, s.handle.tableNo)), reply), Added(s, QueryAction(sql, reply)))
  {
    RunBooks(s, Text(Prepared(sql, s.handle.tableNo)), reply);
    if s.handle.conn.Some? {
      var t := TrackOf(s.handle.log);
      assert Each(Committing(t.session, Text(Prepared(sql, s.handle.tableNo)), reply),
                  OriginOf(t, Text(Prepared(sql, s.handle.tableNo)))) == Added(s, QueryAction(sql, reply));
    }
  }

  lemma ResetBooks(s: State, reply: Reply, proposal: Option<Conn>)
    ensures Books(s, EndTransaction(s, false, reply), [])
    ensures Books(s, Destroy(s, reply), []) && Books(s, Reset(s, false, reply, proposal), [])
  {
    var s1 := EndTransaction(s, false, reply);
    var s2 := Release(s1);
    assert Books(s, s1, []) && Books(s1, s2, []) && Books(s2, Acquire(s2, proposal), []);
  }

  /** What a start finds behind its own ROLLBACK. */
  lemma BeforeStart(s: State, rollback: Reply)
    requires Inv(s) && s.handle.conn.Some?
    ensures var t, t' := TrackOf(s.handle.log), TrackOf(EndTransaction(s, false, rollback).handle.log);
            var ignored := rollback.Failed? && rollback.effect.Ignored?;
            && t'.session.pending == (if t.on && !ignored then [] else t.session.pending)
            && (t'.session.pending != [] ==> t'.cause == if t.on then Some(Ran(s.handle.conn, Rollback, rollback)) else t.cause)
  {
    LogFacts(s.handle.log);
  }

  lemma EachOfNone(origin: Origin)
    ensures Each([], origin) == []
  {
  }

  lemma StartBooks(s: State, rollback: Reply, reply: Reply)
    requires Inv(s)
    ensures Books(s, Start(s, rollback, reply), Added(s, StartAction(rollback, reply)))
  {
    var s1 := EndTransaction(s, false, rollback);
    EndTransactionKeeps(s, false, rollback);
    ResetBooks(s, rollback, None);
    RunBooks(s1, StartTransaction, reply);
    if s.handle.conn.Some? {
      AddedAtStart(s, rollback, reply);
    }
    BooksThen(s, s1, Run(s1, StartTransaction, reply), [], Added(s, StartAction(rollback, reply)));
    assert [] + Added(s, StartAction(rollback, reply)) == Added(s, StartAction(rollback, reply));
  }

  lemma AddedAtStart(s: State, rollback: Reply, reply: Reply)
    requires Inv(s) && s.handle.conn.Some?
    ensures var t := TrackOf(EndTransaction(s, false, rollback).handle.log);
            Each(Committing(t.session, StartTransaction, reply), Swept(t.cause)) == Added(s, StartAction(rollback, reply))
  {
    BeforeStart(s, rollback);
    EachOfNone(Swept(TrackOf(EndTransaction(s, false, rollback).handle.log).cause));
    EachOfNone(Swept(TrackOf(s.handle.log).cause));
    EachOfNone(Swept(Some(Ran(s.handle.conn, Rollback, rollback))));
  }

  lemma NothrowBooks(s: State, sql: string, reply: Reply, rollback: Reply, proposal: Option<Conn>)
    requires Agrees(s.handle) && SessionMatches(s.server, s.handle)
    ensures Books(s, RunTextNothrow(s, sql, reply, rollback, proposal), Added(s, QueryAction(sql, reply)))
  {
    var s1 := Run(s, Text(Prepared(sql, s.handle.tableNo)), reply);
    var added := Added(s, QueryAction(sql, reply));
    TextBooks(s, sql, reply);
    if reply.Failed? {
      ResetBooks(s1, rollback, proposal);
      BooksThen(s, s1, Reset(s1, false, rollback, proposal), added, []);
      assert added + [] == added;
    }
  }

  /**
   What each operation commits, exactly: a text run on a closed session, what is pending at a COMMIT
   that was asked for, and what START TRANSACTION finds in a session that is still open.
   */
  lemma CommittedChanges(s: State, a: Action)
    requires Inv(s)
    ensures Books(s, Apply(s, a), Added(s, a))
  {
    match a
    case StartAction(rollback, reply) => StartBooks(s, rollback, reply);
    case EndAction(commit, reply) => EndBooks(s, commit, reply);
    case QueryAction(sql, reply) => TextBooks(s, sql, reply);
    case NothrowAction(sql, reply, rollback, proposal) => NothrowBooks(s, sql, reply, rollback, proposal);
    case CloseAction(rollback) => ResetBooks(s, rollback, None);
  }

  // ---------------------------------------------------------------------
  // Provenance
  // ---------------------------------------------------------------------

  /** The call accounts for the entry: what it ran or ended, and which earlier failure made it commit unasked. */
  predicate Explained(s: State, a: Action, e: Entry) {
    && s.handle.conn.Some?
    && match e.origin
       case Outside => RunsText(s, a, e.text) && !s.handle.transactionOn
       case Requested =>
         a.EndAction? && a.commit && s.handle.transactionOn && RanText(s.handle.log, s.handle.conn.value, e.text)
       case Orphaned(cause) =>
         && RunsText(s, a, e.text) && s.handle.transactionOn
         && cause.Some? && Dropping(cause.value) && cause.value.target == s.handle.conn
         && Logged(s.handle.log, cause.value)
       case Swept(cause) =>
         && a.StartAction? && RanText(s.handle.log, s.handle.conn.value, e.text)
         && cause.Some? && Stranding(cause.value) && cause.value.target == s.handle.conn
         && if s.handle.transactionOn then cause.value == Ran(s.handle.conn, Rollback, a.rollback)
            else Logged(s.handle.log, cause.value)
  }

  predicate RunsText(s: State, a: Action, text: string) {
    (a.QueryAction? || a.NothrowAction?) && text == Prepared(a.sql, s.handle.tableNo)
  }

  lemma AddedExplained(s: State, a: Action, e: Entry)
    requires Inv(s) && e in Added(s, a)
    ensures Explained(s, a, e)
  {
    LogFacts(s.handle.log);
    if a.StartAction? || a.EndAction? {
      assert e.text in TrackOf(s.handle.log).session.pending;
    }
  }

  /** What a call of the system commits. */
  function AddedBy(sys: System, call: Call): seq<Entry> {
    if sys.stopped || call.Construct? || call.h !in sys.handles then []
    else Added(State(sys.server, sys.handles[call.h]), call.action)
  }

  /** Everything committed during a run, in order. */
  function RunLedger(sys: System, calls: seq<Call>): seq<Entry>
    decreases |calls|
  {
    if calls == [] then [] else AddedBy(sys, calls[0]) + RunLedger(Step(sys, calls[0]), calls[1..])
  }

  lemma StepCommits(sys: System, call: Call)
    requires SysInv(sys)
    ensures SysInv(Step(sys, call))
    ensures Step(sys, call).server.committed == sys.server.committed + Texts(AddedBy(sys, call))
  {
    match call
    case Construct(h, opening, proposal) => ConstructKeeps(sys, h, opening, proposal);
    case Use(h, action) =>
      UseKeeps(sys, h, action);
      if h in sys.handles {
        CommittedChanges(State(sys.server, sys.handles[h]), action);
      }
  }

  /** The data after any run of any handles is what was there before and the run's ledger. */
  lemma {:induction false} EveryRunBooked(sys: System, calls: seq<Call>)
    requires SysInv(sys)
    ensures Steps(sys, calls).server.committed == sys.server.committed + Texts(RunLedger(sys, calls))
    decreases |calls|
  {
    if calls != [] {
      var sys1 := Step(sys, calls[0]);
      StepCommits(sys, calls[0]);
      EveryRunBooked(sys1, calls[1..]);
      TextsAppend(sys.server.committed, AddedBy(sys, calls[0]), RunLedger(sys1, calls[1..]));
    }
  }

  /** The call was made on a handle of the system and accounts for the entry. */
  predicate ExplainedBy(sys: System, call: Call, e: Entry) {
    call.Use? && call.h in sys.handles && Explained(State(sys.server, sys.handles[call.h]), call.action, e)
  }

  /** Entry k of the run's ledger is an entry of call i, at the place it has among those of the call. */
  predicate CommittedIn(sys: System, calls: seq<Call>, k: nat, i: nat)
    requires k < |RunLedger(sys, calls)| && i < |calls|
  {
    var before, added := |RunLedger(sys, calls[..i])|, AddedBy(Steps(sys, calls[..i]), calls[i]);
    before <= k < before + |added| && RunLedger(sys, calls)[k] == added[k - before]
  }

  /** Every entry of a run's ledger was committed by a call of that run, and this call accounts for it. */
  lemma {:induction false} EveryCommitExplained(sys: System, calls: seq<Call>, k: nat) returns (i: nat)
    requires SysInv(sys) && k < |RunLedger(sys, calls)|
    ensures i < |calls| && CommittedIn(sys, calls, k, i)
    ensures ExplainedBy(Steps(sys, calls[..i]), calls[i], RunLedger(sys, calls)[k])
    decreases |calls|
  {
    var here := AddedBy(sys, calls[0]);
    if k < |here| {
      i := 0;
      assert calls[..0] == [];
      AddedExplained(State(sys.server, sys.handles[calls[0].h]), calls[0].action, here[k]);
    } else {
      StepCommits(sys, calls[0]);
      var j := EveryCommitExplained(Step(sys, calls[0]), calls[1..], k - |here|);
      i := j + 1;
      OneCallEarlier(sys, calls, k, j);
    }
  }

  /** What call j does in the run without its first call, call j + 1 does in the whole one. */
  lemma OneCallEarlier(sys: System, calls: seq<Call>, k: nat, j: nat)
    requires j + 1 < |calls| && |AddedBy(sys, calls[0])| <= k < |RunLedger(sys, calls)|
    requires CommittedIn(Step(sys, calls[0]), calls[1..], k - |AddedBy(sys, calls[0])|, j)
    ensures CommittedIn(sys, calls, k, j + 1)
    ensures Steps(sys, calls[..j + 1]) == Steps(Step(sys, calls[0]), calls[1..][..j])
    ensures RunLedger(sys, calls)[k] == RunLedger(Step(sys, calls[0]), calls[1..])[k - |AddedBy(sys, calls[0])|]
  {
    RunPrefix(sys, calls, j);
    Shifted(AddedBy(sys, calls[0]), RunLedger(Step(sys, calls[0]), calls[1..]), k);
  }

  lemma RunPrefix(sys: System, calls: seq<Call>, j: nat)
    requires j < |calls|
    ensures Steps(sys, calls[..j + 1]) == Steps(Step(sys, calls[0]), calls[1..][..j])
    ensures |RunLedger(sys, calls[..j + 1])| ==
            |AddedBy(sys, calls[0])| + |RunLedger(Step(sys, calls[0]), calls[1..][..j])|
  {
    assert calls[..j + 1][0] == calls[0] && calls[..j + 1][1..] == calls[1..][..j];
  }

  lemma Shifted(here: seq<Entry>, later: seq<Entry>, k: nat)
    requires |here| <= k < |here| + |later|
    ensures (here + later)[k] == later[k - |here|]
  {
  }

  // ---------------------------------------------------------------------
  // When nothing is committed unasked
  // ---------------------------------------------------------------------

  predicate Wanted(e: Entry) {
    e.origin.Outside? || e.origin.Requested?
  }

  /** No answer of the action makes session and handle disagree; query_nothrow gives a disagreeing session up. */
  predicate Harmless(a: Action) {
    match a
    case StartAction(rollback, reply) =>
      !(rollback.Failed? && rollback.effect.Ignored?) && !(reply.Failed? && reply.effect.Executed?)
    case EndAction(_, reply) => !(reply.Failed? && reply.effect.Ignored?)
    case QueryAction(_, reply) => !(reply.Failed? && reply.effect.Aborted?)
    case _ => true
  }

  lemma HarmlessKeeps(s: State, a: Action)
    requires Inv(s) && TrackOf(s.handle.log).cause.None? && Harmless(a)
    ensures TrackOf(Apply(s, a).handle.log).cause.None?
    ensures forall e | e in Added(s, a) :: Wanted(e)
  {
    LogFacts(s.handle.log);
    match a
    case StartAction(rollback, reply) => HarmlessStart(s, rollback, reply);
    case EndAction(commit, reply) => HarmlessEnd(s, commit, reply);
    case NothrowAction(sql, reply, rollback, proposal) => HarmlessNothrow(s, sql, reply, rollback, proposal);
    case QueryAction(sql, reply) => HarmlessText(s, sql, reply);
    case CloseAction(rollback) => ResetInStep(s, rollback, None);
  }

  lemma HarmlessText(s: State, sql: string, reply: Reply)
    requires Inv(s) && CauseKnown(TrackOf(s.handle.log)) && TrackOf(s.handle.log).cause.None?
    ensures !(reply.Failed? && reply.effect.Aborted?) ==>
              TrackOf(Run(s, Text(Prepared(sql, s.handle.tableNo)), reply).handle.log).cause.None?
    ensures s.handle.conn.Some? ==> forall e | e in AddedByText(s, sql, reply) :: Wanted(e)
  {
  }

  lemma HarmlessNothrow(s: State, sql: string, reply: Reply, rollback: Reply, proposal: Option<Conn>)
    requires Inv(s) && CauseKnown(TrackOf(s.handle.log)) && TrackOf(s.handle.log).cause.None?
    ensures TrackOf(RunTextNothrow(s, sql, reply, rollback, proposal).handle.log).cause.None?
    ensures s.handle.conn.Some? ==> forall e | e in AddedByText(s, sql, reply) :: Wanted(e)
  {
    HarmlessText(s, sql, reply);
    if reply.Failed? {
      ResetInStep(Run(s, Text(Prepared(sql, s.handle.tableNo)), reply), rollback, proposal);
    }
  }

  lemma HarmlessEnd(s: State, commit: bool, reply: Reply)
    requires Inv(s) && CauseKnown(TrackOf(s.handle.log)) && TrackOf(s.handle.log).cause.None?
    requires !(reply.Failed? && reply.effect.Ignored?)
    ensures TrackOf(EndTransaction(s, commit, reply).handle.log).cause.None?
  {
  }

  lemma HarmlessStart(s: State, rollback: Reply, reply: Reply)
    requires Inv(s) && CauseKnown(TrackOf(s.handle.log)) && TrackOf(s.handle.log).cause.None?
    requires Harmless(StartAction(rollback, reply))
    ensures TrackOf(Start(s, rollback, reply).handle.log).cause.None?
    ensures Added(s, StartAction(rollback, reply)) == []
  {
    var s1 := EndTransaction(s, false, rollback);
    EndTransactionKeeps(s, false, rollback);
    HarmlessEnd(s, false, rollback);
    LogFacts(s1.handle.log);
    LogFacts(s.handle.log);
  }

  lemma ResetInStep(s: State, rollback: Reply, proposal: Option<Conn>)
    requires Agrees(s.handle) && (s.handle.conn.None? ==> TrackOf(s.handle.log).cause.None?)
    ensures TrackOf(Destroy(s, rollback).handle.log).cause.None?
    ensures TrackOf(Reset(s, false, rollback, proposal).handle.log).cause.None?
  {
    var s1 := EndTransaction(s, false, rollback);
    var s2 := Release(s1);
    assert s.handle.conn.None? ==> TrackOf(s1.handle.log).cause.None?;
    assert TrackOf(s2.handle.log).cause.None?;
  }

  /** In no handle do session and fields disagree. */
  predicate InStep(sys: System) {
    forall h | h in sys.handles :: TrackOf(sys.handles[h].log).cause.None?
  }

  /**
   Without a COMMIT or ROLLBACK that fails and is ignored, a START TRANSACTION that fails and is
   executed, or a statement that fails and costs the transaction, a run commits only what is run
   outside a transaction or is asked to be committed.
   */
  lemma {:induction false} OnlyWantedCommits(sys: System, calls: seq<Call>)
    requires SysInv(sys) && InStep(sys)
    requires forall i | 0 <= i < |calls| :: calls[i].Use? ==> Harmless(calls[i].action)
    ensures forall e | e in RunLedger(sys, calls) :: Wanted(e)
    decreases |calls|
  {
    if calls != [] {
      StepCommits(sys, calls[0]);
      StepHarmless(sys, calls[0]);
      OnlyWantedCommits(Step(sys, calls[0]), calls[1..]);
    }
  }

  lemma StepHarmless(sys: System, call: Call)
    requires SysInv(sys) && InStep(sys) && (call.Use? ==> Harmless(call.action))
    ensures InStep(Step(sys, call))
    ensures forall e | e in AddedBy(sys, call) :: Wanted(e)
  {
    match call
    case Construct(h, opening, proposal) => OpenInStep(sys.server, opening, sys.tagSize, proposal);
    case Use(h, action) =>
      if h in sys.handles {
        HarmlessUse(sys, h, action);
      }
  }

  lemma HarmlessUse(sys: System, h: nat, action: Action)
    requires InStep(sys) && h in sys.handles && Inv(State(sys.server, sys.handles[h])) && Harmless(action)
    ensures InStep(Step(sys, Use(h, action)))
    ensures forall e | e in AddedBy(sys, Use(h, action)) :: Wanted(e)
  {
    HarmlessKeeps(State(sys.server, sys.handles[h]), action);
  }

  lemma OpenInStep(sv: Server, o: Opening, tagSize: TagSize, proposal: Option<Conn>)
    ensures var r := Open(sv, o, tagSize, proposal).result;
            r.Ok? ==> TrackOf(r.value.log).cause.None?
  {
  }

  /**
   A statement run outside a transaction is committed exactly when the session is closed; it always
   is unless an earlier statement failed on the connection.
   */
  lemma TextOutsideTransactionIff(s: State, sql: string, reply: Reply)
    requires Inv(s) && s.handle.conn.Some? && !s.handle.transactionOn
    ensures var open := SessionOf(s.server, s.handle.conn.value).open;
            && (RunText(s, sql, reply).server.committed == s.server.committed + [Prepared(sql, s.handle.tableNo)] <==>
                TakesEffect(reply) && !open)
            && (open ==> TrackOf(s.handle.log).cause.Some? && Stranding(TrackOf(s.handle.log).cause.value))
  {
    var text := Prepared(sql, s.handle.tableNo);
    assert |s.server.committed + [text]| != |s.server.committed|;
    LogFacts(s.handle.log);
  }

  /**
   A statement run inside a transaction is committed at once exactly when an earlier failed
   statement has cost the session its transaction.
   */
  lemma TextInsideTransactionIff(s: State, sql: string, reply: Reply)
    requires Inv(s) && s.handle.conn.Some? && s.handle.transactionOn
    ensures var cause := TrackOf(s.handle.log).cause;
            RunText(s, sql, reply).server.committed != s.server.committed <==>
            TakesEffect(reply) && cause.Some? && Dropping(cause.value)
  {
    var text := Prepared(sql, s.handle.tableNo);
    assert |s.server.committed + [text]| != |s.server.committed|;
    LogFacts(s.handle.log);
  }
}
