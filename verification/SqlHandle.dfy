/**
 LnmcsysDb as a state machine: connection and transaction handling, with failure
 possible at every step. Operations are functions of the handle and the server;
 the answers of the outside world are arguments.
 */
module SqlHandle {
  import opened CStrings
  import opened Wrappers
  import opened Sharding
  import opened SqlServer
  import opened TableRewrite

  // ---------------------------------------------------------------------
  // State
  // ---------------------------------------------------------------------

  datatype Event =
    | Took(conn: Conn, key: Key)
    | Ran(target: Option<Conn>, stmt: Stmt, reply: Reply)
    | PutBack(conn: Conn, key: Key, reconnect: bool)

  /** What the handle did, newest last. */
  datatype Log = Empty | Snoc(before: Log, last: Event)

  /** The fields of LnmcsysDb that decide its behaviour, and a history of its calls. */
  datatype Handle = Handle(key: Key, tableNo: nat, conn: Option<Conn>, transactionOn: bool, reConn: bool, log: Log)

  datatype State = State(server: Server, handle: Handle)

  // ---------------------------------------------------------------------
  // Constructors
  // ---------------------------------------------------------------------

  /** The size of _tag, which holds at least a terminator. */
  type TagSize = n: nat | 0 < n witness 1

  /** What a handle is constructed with; buffers says whether the thread's buffers could be had. */
  datatype Opening = Opening(key: Key, dbNum: Uint64, tbNum: Uint64, sign64: string -> Uint64, buffers: bool)

  /** The key with its tag as it fits _tag. */
  function StoredKey(key: Key, tagSize: TagSize): Key {
    if key.ByTag? then ByTag(Clip(key.tag, tagSize)) else key
  }

  datatype Opened = Opened(server: Server, result: Result<Handle>)

  /**
   The three constructors: the connection is taken first, under the key asked for; buffers and
   counts are checked afterwards, and the table number is computed from the key as stored.
   */
  function Open(sv: Server, o: Opening, tagSize: TagSize, proposal: Option<Conn>): Opened {
    var conn := Granted(sv, proposal);
    if conn.None? then Opened(sv, Err(MysqlError))
    else
      var stored := StoredKey(o.key, tagSize);
      var route := Route(stored, o.sign64, o.dbNum, o.tbNum);
      Opened(Lend(sv, conn.value, o.key),
             if !o.buffers || (!o.key.ByDbid? && (o.dbNum == 0 || o.tbNum == 0)) then Err(SysError)
             else if route.None? then Err(Stopped)
             else Ok(NewHandle(stored, route.value.table, conn.value, o.key)))
  }

  function NewHandle(stored: Key, tableNo: nat, c: Conn, asked: Key): Handle {
    Handle(stored, tableNo, Some(c), false, false, Snoc(Empty, Took(c, asked)))
  }

  // ---------------------------------------------------------------------
  // Operations
  // ---------------------------------------------------------------------

  function Run(s: State, stmt: Stmt, reply: Reply): State {
    State(Query(s.server, s.handle.conn, stmt, reply),
          s.handle.(log := Snoc(s.handle.log, Ran(s.handle.conn, stmt, reply))))
  }

  function EndTransaction(s: State, commit: bool, reply: Reply): State {
    if !s.handle.transactionOn then s
    else
      var s' := Run(s, if commit then Commit else Rollback, reply);
      s'.(handle := s'.handle.(transactionOn := false, reConn := s'.handle.reConn || reply.Failed?))
  }

  /** Throws exactly when START TRANSACTION fails. */
  function Start(s: State, rollback: Reply, reply: Reply): State {
    BeginTransaction(EndTransaction(s, false, rollback), reply)
  }

  function BeginTransaction(s: State, reply: Reply): State {
    var s' := Run(s, StartTransaction, reply);
    if reply.Failed? then s'.(handle := s'.handle.(reConn := true))
    else s'.(handle := s'.handle.(transactionOn := true))
  }

  /** query: throws exactly when the statement fails. */
  function RunText(s: State, sql: string, reply: Reply): State {
    var s' := Run(s, Text(Prepared(sql, s.handle.tableNo)), reply);
    s'.(handle := s'.handle.(reConn := s'.handle.reConn || reply.Failed?))
  }

  /** _release_connection: the argument is only logged; the field decides. */
  function Release(s: State): State {
    if s.handle.conn.None? then s
    else
      var c := s.handle.conn.value;
      State(TakeBack(s.server, c, s.handle.reConn),
            s.handle.(conn := None, log := Snoc(s.handle.log, PutBack(c, s.handle.key, s.handle.reConn))))
  }

  function Acquire(s: State, proposal: Option<Conn>): State {
    var conn := Granted(s.server, proposal);
    if conn.None? then s.(handle := s.handle.(conn := None))
    else State(Lend(s.server, conn.value, s.handle.key),
               s.handle.(conn := conn, log := Snoc(s.handle.log, Took(conn.value, s.handle.key))))
  }

  /** _reset: throws, leaving no connection, exactly when the pool declines. */
  function Reset(s: State, commit: bool, reply: Reply, proposal: Option<Conn>): State {
    Acquire(Release(EndTransaction(s, commit, reply)), proposal)
  }

  /** query_nothrow: a failed statement resets the handle and does not set the reconnect field. */
  function RunTextNothrow(s: State, sql: string, reply: Reply, rollback: Reply, proposal: Option<Conn>): State {
    var s' := Run(s, Text(Prepared(sql, s.handle.tableNo)), reply);
    if reply.Failed? then Reset(s', false, rollback, proposal) else s'
  }

  /** The destructor. */
  function Destroy(s: State, rollback: Reply): State {
    Release(EndTransaction(s, false, rollback))
  }

  // ---------------------------------------------------------------------
  // Reading a log without looking at the server
  // ---------------------------------------------------------------------

  /** Why a text was committed. */
  datatype Origin =
    | Outside                          // it was run with no transaction on
    | Requested                        // the caller asked for COMMIT
    | Swept(cause: Option<Event>)      // START TRANSACTION found it in a session that cause had left open
    | Orphaned(cause: Option<Event>)   // it was run in a transaction that cause had ended on the server

  datatype Entry = Entry(text: string, origin: Origin)

  /**
   ok: every connection was put back before the next was taken; statements went to the connection
   held; transactions are bracketed.
   first: the key the first connection was taken with. returned: a connection has been put back.
   keyed: every connection put back so far went back under the key it was taken with.
   failed: a statement has failed on the current connection.
   session: the session behind the connection held, replayed from the replies.
   cause: the event since which session and handle disagree on whether a transaction is on.
   ledger: everything that the statements of the log have committed.
   */
  datatype Track = Track(ok: bool, first: Option<Key>, returned: bool, keyed: bool, held: Option<(Conn, Key)>,
                         on: bool, failed: bool, session: Session, cause: Option<Event>, ledger: seq<Entry>)

  function Observe(t: Track, e: Event): Track {
    match e
    case Took(c, key) =>
      t.(ok := t.ok && t.held.None? && !t.on, first := if t.first.None? then Some(key) else t.first,
         held := Some((c, key)), failed := false, session := IDLE, cause := None)
    case PutBack(c, key, _) =>
      t.(ok := t.ok && t.held.Some? && t.held.value.0 == c && !t.on, returned := true,
         keyed := t.keyed && t.held == Some((c, key)), held := None, session := IDLE, cause := None)
    case Ran(target, stmt, reply) =>
      var on := OnAfter(t.on, stmt, reply);
      var t' := t.(ok := t.ok && target == HeldConn(t) && (!stmt.Text? ==> (stmt.StartTransaction? <==> !t.on)),
                   on := on, failed := t.failed || reply.Failed?);
      if target.None? then t'
      else
        var session := After(t.session, stmt, reply);
        t'.(session := session,
            cause := if session.open == on then None else if t.cause.Some? then t.cause else Some(e),
            ledger := t.ledger + Each(Committing(t.session, stmt, reply), OriginOf(t, stmt)))
  }

  /** Whether the handle considers a transaction to be on after a statement. */
  function OnAfter(on: bool, stmt: Stmt, reply: Reply): bool {
    match stmt
    case StartTransaction => reply.Done?
    case Commit => false
    case Rollback => false
    case Text(_) => on
  }

  function HeldConn(t: Track): Option<Conn> {
    if t.held.Some? then Some(t.held.value.0) else None
  }

  function OriginOf(t: Track, stmt: Stmt): Origin {
    if stmt.Commit? then Requested
    else if stmt.StartTransaction? then Swept(t.cause)
    else if t.on then Orphaned(t.cause)
    else Outside
  }

  function Each(texts: seq<string>, origin: Origin): (r: seq<Entry>)
    ensures |r| == |texts|
  {
    seq(|texts|, i requires 0 <= i < |texts| => Entry(texts[i], origin))
  }

  /** The texts of a ledger, in order. */
  function Texts(ledger: seq<Entry>): (r: seq<string>)
    ensures |r| == |ledger|
  {
    seq(|ledger|, i requires 0 <= i < |ledger| => ledger[i].text)
  }

  function TrackOf(log: Log): Track {
    match log
    case Empty => Track(true, None, false, true, None, false, false, IDLE, None, [])
    case Snoc(before, last) => Observe(TrackOf(before), last)
  }

  function Held(h: Handle): set<Conn> {
    if h.conn.Some? then {h.conn.value} else {}
  }

  /** The handle's fields agree with its log. */
  predicate Agrees(h: Handle) {
    var t := TrackOf(h.log);
    t.ok && t.on == h.transactionOn && HeldConn(t) == h.conn && KeysAgree(t, h.key)
  }

  /** Only the first connection can have been taken with another key than the stored one. */
  predicate KeysAgree(t: Track, stored: Key) {
    && t.first.Some?
    && (t.held.Some? ==> t.held.value.1 == if t.returned then stored else t.first.value)
    && (t.held.None? ==> t.returned)
    && (t.keyed <==> !t.returned || t.first.value == stored)
  }

  /**
   The session behind the handle is the one replayed from the log, and an open one is always known
   to the handle: as its transaction, or as a connection to be reset.
   */
  predicate SessionMatches(sv: Server, h: Handle) {
    h.conn.Some? ==>
      var s := SessionOf(sv, h.conn.value);
      && s == TrackOf(h.log).session
      && (s.open ==> h.transactionOn || h.reConn)
      && (!s.open ==> s.pending == [])
  }

  /** The connection is lent out under the key it was taken with. */
  predicate LentToHandle(sv: Server, h: Handle) {
    h.conn.Some? ==>
      && h.conn.value in sv.lent
      && Some((h.conn.value, sv.lent[h.conn.value])) == TrackOf(h.log).held
  }

  /** A connection on which a statement failed is going to be reset. */
  predicate FailureNoted(h: Handle) {
    h.conn.Some? && TrackOf(h.log).failed ==> h.reConn
  }

  /** No connection in the pool carries a transaction. */
  predicate PoolClean(sv: Server) {
    forall c | c in sv.sessions && c !in sv.lent :: sv.sessions[c] == IDLE
  }

  /** What holds even inside query_nothrow, between the failure and the reset. */
  predicate Core(s: State) {
    && Agrees(s.handle)
    && SessionMatches(s.server, s.handle)
    && LentToHandle(s.server, s.handle)
    && PoolClean(s.server)
  }

  /** What every operation keeps. */
  predicate Inv(s: State) {
    Core(s) && FailureNoted(s.handle)
  }

  // ---------------------------------------------------------------------
  // One step at a time
  // ---------------------------------------------------------------------

  lemma EndTransactionKeeps(s: State, commit: bool, reply: Reply)
    requires Core(s)
    ensures var s' := EndTransaction(s, commit, reply);
            && Core(s') && !s'.handle.transactionOn && (Inv(s) ==> Inv(s'))
  {
  }

  lemma StartKeeps(s: State, rollback: Reply, reply: Reply)
    requires Inv(s)
    ensures Inv(Start(s, rollback, reply))
  {
    EndTransactionKeeps(s, false, rollback);
    BeginTransactionKeeps(EndTransaction(s, false, rollback), reply);
  }

  lemma BeginTransactionKeeps(s: State, reply: Reply)
    requires Inv(s) && !s.handle.transactionOn
    ensures Inv(BeginTransaction(s, reply))
  {
  }

  lemma RunTextKeeps(s: State, sql: string, reply: Reply)
    requires Inv(s)
    ensures Inv(RunText(s, sql, reply))
  {
  }

  lemma ReleaseKeeps(s: State)
    requires Core(s) && !s.handle.transactionOn
    ensures Inv(Release(s)) && Release(s).handle.conn.None? && !Release(s).handle.transactionOn
  {
  }

  lemma AcquireKeeps(s: State, proposal: Option<Conn>)
    requires Inv(s) && s.handle.conn.None? && !s.handle.transactionOn
    ensures Inv(Acquire(s, proposal))
  {
  }

  lemma ResetKeeps(s: State, commit: bool, reply: Reply, proposal: Option<Conn>)
    requires Core(s)
    ensures Inv(Reset(s, commit, reply, proposal))
  {
    EndTransactionKeeps(s, commit, reply);
    var s1 := EndTransaction(s, commit, reply);
    ReleaseKeeps(s1);
    AcquireKeeps(Release(s1), proposal);
  }

  lemma RunTextNothrowKeeps(s: State, sql: string, reply: Reply, rollback: Reply, proposal: Option<Conn>)
    requires Inv(s)
    ensures Inv(RunTextNothrow(s, sql, reply, rollback, proposal))
  {
    var s' := Run(s, Text(Prepared(sql, s.handle.tableNo)), reply);
    assert Core(s');
    if reply.Failed? {
      ResetKeeps(s', false, rollback, proposal);
    }
  }

  lemma DestroyKeeps(s: State, rollback: Reply)
    requires Inv(s)
    ensures Inv(Destroy(s, rollback)) && Destroy(s, rollback).handle.conn.None?
  {
    EndTransactionKeeps(s, false, rollback);
    ReleaseKeeps(EndTransaction(s, false, rollback));
  }
}
