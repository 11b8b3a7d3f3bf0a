/**
 The other side of LnmcsysDb: the worker's connection pool and the MySQL sessions
 behind it. Neither is part of the repository; this is the contract the handle
 relies on. Every answer of the outside world is a parameter, and a statement
 reported as failed may have been executed, ignored, or have cost the session
 its transaction.
 */
module SqlServer {
  import opened Wrappers
  import opened Sharding

  type Conn = nat

  /** Caller text is assumed to hold no transaction control; the handle issues the other three itself. */
  datatype Stmt = StartTransaction | Commit | Rollback | Text(sql: string)

  datatype Effect = Executed | Ignored | Aborted

  datatype Reply = Done(rows: nat) | Failed(code: nat, effect: Effect)

  /** The return value of LNSYSMySQLWorker::query. */
  function Ret(reply: Reply): int {
    match reply
    case Done(rows) => rows
    case Failed(code, _) => -1 - code
  }

  predicate TakesEffect(reply: Reply) {
    reply.Done? || reply.effect.Executed?
  }

  datatype Session = Session(open: bool, pending: seq<string>)

  const IDLE := Session(false, [])

  /** Sessions by connection, the connections lent out with the key they were asked for, and what is committed. */
  datatype Server = Server(sessions: map<Conn, Session>, lent: map<Conn, Key>, committed: seq<string>)

  function SessionOf(sv: Server, c: Conn): Session {
    if c in sv.sessions then sv.sessions[c] else IDLE
  }

  /** The session after a statement; one that is reported as failed may end it. */
  function After(s: Session, stmt: Stmt, reply: Reply): Session {
    if TakesEffect(reply) then
      match stmt
      case StartTransaction => Session(true, [])
      case Commit => IDLE
      case Rollback => IDLE
      case Text(sql) => if s.open then Session(true, s.pending + [sql]) else s
    else if reply.effect.Aborted? then IDLE
    else s
  }

  /** What a statement commits. START TRANSACTION implicitly commits a transaction that is still open. */
  function Committing(s: Session, stmt: Stmt, reply: Reply): seq<string> {
    if !TakesEffect(reply) then []
    else
      match stmt
      case StartTransaction => s.pending
      case Commit => s.pending
      case Rollback => []
      case Text(sql) => if s.open then [] else [sql]
  }

  /** query: nothing happens on a null connection. */
  function Query(sv: Server, conn: Option<Conn>, stmt: Stmt, reply: Reply): Server {
    if conn.None? then sv
    else
      var s := SessionOf(sv, conn.value);
      sv.(sessions := sv.sessions[conn.value := After(s, stmt, reply)],
          committed := sv.committed + Committing(s, stmt, reply))
  }

  /** What get_connection* answers: the pool may decline, and never lends a connection twice. */
  function Granted(sv: Server, proposal: Option<Conn>): Option<Conn> {
    if proposal.Some? && proposal.value !in sv.lent then proposal else None
  }

  function Lend(sv: Server, c: Conn, key: Key): Server {
    sv.(lent := sv.lent[c := key])
  }

  /** put_back_connection*: with the reconnect flag the session is closed first. */
  function TakeBack(sv: Server, c: Conn, reconnect: bool): Server {
    var sv' := if reconnect then sv.(sessions := sv.sessions[c := IDLE]) else sv;
    sv'.(lent := sv'.lent - {c})
  }
}
