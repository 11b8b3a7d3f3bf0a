/**
 class LnmcsysDb with the fields and branches of the source. Each method is proved
 to do to its fields and to the worker what the functions of SqlHandle say, so
 the results about runs apply to it.
 */
module Lnmcsys {
  import opened CStrings
  import opened Wrappers
  import opened Arith
  import opened Sharding
  import opened SqlServer
  import opened TableRewrite
  import SqlHandle

  /** The arguments of a call of put_back_connection or put_back_connection_by_id; the kind of key says which. */
  datatype PutBackCall = PutBackCall(conn: Conn, key: Key, reConn: bool)

  /** LNSYSMySQLWorker, with the answers of the pool and the server passed in. */
  class MysqlWorker {
    var sessions: map<Conn, Session>
    var lent: map<Conn, Key>
    var committed: seq<string>
    ghost var returned: seq<PutBackCall>

    constructor ()
      ensures View() == Server(map[], map[], []) && returned == []
    {
      sessions, lent, committed, returned := map[], map[], [], [];
    }

    function View(): Server
      reads this
    {
      Server(sessions, lent, committed)
    }

    method SetView(sv: Server)
      modifies this
      ensures View() == sv && returned == old(returned)
    {
      sessions, lent, committed := sv.sessions, sv.lent, sv.committed;
    }

    method RunQuery(conn: Option<Conn>, stmt: Stmt, reply: Reply) returns (ret: int)
      modifies this
      ensures View() == Query(old(View()), conn, stmt, reply) && returned == old(returned)
      ensures ret == Ret(reply) && (ret < 0 <==> reply.Failed?)
    {
      SetView(Query(View(), conn, stmt, reply));
      ret := Ret(reply);
    }

    method GetConnection(key: Key, proposal: Option<Conn>) returns (conn: Option<Conn>)
      modifies this
      ensures conn == Granted(old(View()), proposal)
      ensures View() == if conn.Some? then Lend(old(View()), conn.value, key) else old(View())
      ensures returned == old(returned)
    {
      conn := Granted(View(), proposal);
      if conn.Some? {
        lent := lent[conn.value := key];
      }
    }

    method PutBackConnection(conn: Conn, key: Key, reConn: bool)
      modifies this
      ensures View() == TakeBack(old(View()), conn, reConn)
      ensures returned == old(returned) + [PutBackCall(conn, key, reConn)]
    {
      SetView(TakeBack(View(), conn, reConn));
      returned := returned + [PutBackCall(conn, key, reConn)];
    }
  }

  datatype DbType = TypeId | TypeTag | TypeDbid | TypeInvalid

  /** With at most 10^9 tables routing keeps the table number so short that no statement is ever cut. */
  lemma RoutedStatementsNotCut(key: Key, sign64: string -> Uint64, dbNum: Uint64, tbNum: Uint64, sql: string)
    requires 0 < dbNum && 0 < tbNum <= 1_000_000_000 && Route(key, sign64, dbNum, tbNum).Some?
    ensures var tableNo := Route(key, sign64, dbNum, tbNum).value.table;
            Prepared(sql, tableNo) == Expanded(Clip(sql, SQL_BUF_LEN), tableNo)
  {
    match key {
      case ById(id) => ShardInRange(id, dbNum, tbNum);
      case ByTag(tag) => ShardInRange(sign64(tag), dbNum, tbNum);
      case ByDbid(_) =>
    }
    NeverGrowsBelowBillionTables(sql, Route(key, sign64, dbNum, tbNum).value.table);
  }

  /** The one call that gives a connection back, if there is one to give. */
  function GivenBack(conn: Option<Conn>, key: Key, reConn: bool): seq<PutBackCall> {
    if conn.Some? then [PutBackCall(conn.value, key, reConn)] else []
  }

  class LnmcsysDb {
    var worker: MysqlWorker
    var dbType: DbType
    var id: Uint64
    var tag: string
    var tableNo: nat
    var dbNum: Uint64
    var tbNum: Uint64
    var mysqlConn: Option<Conn>
    var transactionOn: bool
    var reConn: bool
    ghost var log: SqlHandle.Log

    /** What never changes while the handle is alive. */
    function Setting(): (DbType, Uint64, string, nat, Uint64, Uint64)
      reads this
    {
      (dbType, id, tag, tableNo, dbNum, tbNum)
    }

    predicate SameSetting(setting: (DbType, Uint64, string, nat, Uint64, Uint64))
      reads this
    {
      Setting() == setting
    }

    /** From a completed constructor to the destructor. */
    predicate Alive()
      reads this
    {
      !dbType.TypeInvalid?
    }

    /** The key the connection is refetched and put back with. */
    function HandleKey(): Key
      reads this
      requires Alive()
    {
      match dbType
      case TypeId => ById(id)
      case TypeTag => ByTag(tag)
      case TypeDbid => ByDbid(id)
    }

    ghost function View(): SqlHandle.State
      reads this, worker
      requires Alive()
    {
      SqlHandle.State(worker.View(), SqlHandle.Handle(HandleKey(), tableNo, mysqlConn, transactionOn, reConn, log))
    }

    constructor Init(worker: MysqlWorker, key: Key, tag: string, tableNo: nat, dbNum: Uint64, tbNum: Uint64, conn: Conn)
      ensures this.dbNum == dbNum && this.tbNum == tbNum
      ensures Alive() && this.worker == worker && worker.View() == old(worker.View())
      ensures HandleKey() == (if key.ByTag? then ByTag(tag) else key)
      ensures this.tableNo == tableNo && mysqlConn == Some(conn) && !transactionOn && !reConn
      ensures log == SqlHandle.Snoc(SqlHandle.Empty, SqlHandle.Took(conn, key))
    {
      this.worker := worker;
      this.tag := tag;
      match key {
        case ById(i) => dbType, id := TypeId, i;
        case ByTag(_) => dbType, id := TypeTag, 0;
        case ByDbid(i) => dbType, id := TypeDbid, i;
      }
      this.tableNo, this.dbNum, this.tbNum := tableNo, dbNum, tbNum;
      mysqlConn, transactionOn, reConn := Some(conn), false, false;
      log := SqlHandle.Snoc(SqlHandle.Empty, SqlHandle.Took(conn, key));
    }

    /** The three constructors; a product of the counts that is zero modulo 2^64 stops the program. */
    static method Construct(worker: MysqlWorker?, o: SqlHandle.Opening, tagSize: SqlHandle.TagSize,
                            proposal: Option<Conn>)
      returns (r: Result<LnmcsysDb>)
      modifies worker
      ensures worker == null ==> r == Err(SysError)
      ensures worker != null ==>
                var made := SqlHandle.Open(old(worker.View()), o, tagSize, proposal);
                && worker.View() == made.server
                && (made.result.Err? ==> r == Err(made.result.error))
                && (made.result.Ok? ==>
                    && r.Ok? && fresh(r.value) && r.value.worker == worker && r.value.Alive()
                    && r.value.View().handle == made.result.value
                    && r.value.dbNum == (if o.key.ByDbid? then 1 else o.dbNum)
                    && r.value.tbNum == (if o.key.ByDbid? then 1 else o.tbNum))
      ensures worker != null ==> worker.returned == old(worker.returned)
    {
      if worker == null {
        return Err(SysError);
      }
      var conn := worker.GetConnection(o.key, proposal);
      if conn.None? {
        return Err(MysqlError);
      }
      if !o.buffers {
        return Err(SysError);
      }
      var stored := if o.key.ByTag? then ByTag(Clip(o.key.tag, tagSize)) else o.key;
      var dbNum, tbNum := o.dbNum, o.tbNum;
      if o.key.ByDbid? {
        dbNum, tbNum := 1, 1;
      }
      if dbNum == 0 || tbNum == 0 {
        return Err(SysError);
      }
      var tableNo := GetTableNo(stored, o.sign64, dbNum, tbNum);
      if tableNo.None? {
        return Err(Stopped);
      }
      var db := new LnmcsysDb.Init(worker, o.key, if stored.ByTag? then stored.tag else "",
                                   tableNo.value, dbNum, tbNum, conn.value);
      return Ok(db);
    }

    /** _get_table_no; None is the division by zero. */
    static method GetTableNo(key: Key, sign64: string -> Uint64, dbNum: Uint64, tbNum: Uint64)
      returns (tableNo: Option<nat>)
      requires dbNum > 0 && tbNum > 0
      ensures var route := Route(key, sign64, dbNum, tbNum);
              tableNo == if route.None? then None else Some(route.value.table)
    {
      if key.ByDbid? {
        return Some(0);
      }
      var number := if key.ById? then key.id else sign64(key.tag);
      var product := Modulus(dbNum, tbNum);
      if product == 0 {
        return None;
      }
      return Some(number % product % tbNum);
    }

    /** get_db_index; None is the division by zero. */
    method GetDbIndex(sign64: string -> Uint64) returns (index: Option<nat>)
      requires Alive() && dbNum > 0 && tbNum > 0
      ensures var route := Route(HandleKey(), sign64, dbNum, tbNum);
              index == if route.None? then None else Some(route.value.database)
    {
      match dbType {
        case TypeId => index := GetServerIndex(id, dbNum, tbNum);
        case TypeTag => index := GetServerIndex(sign64(tag), dbNum, tbNum);
        case TypeDbid => index := Some(id);
      }
    }

    static method GetServerIndex(uid: Uint64, dbNum: Uint64, tbNum: Uint64) returns (index: Option<nat>)
      requires dbNum > 0 && tbNum > 0
      ensures var shard := ShardOf(uid, dbNum, tbNum);
              index == if shard.None? then None else Some(shard.value.database)
    {
      var product := Modulus(dbNum, tbNum);
      if product == 0 {
        return None;
      }
      var number := uid % product;
      QuotientNat(number, tbNum);
      return Some(number / tbNum);
    }

    method EndTransaction(commit: bool, reply: Reply)
      requires Alive()
      modifies this, worker
      ensures Alive() && worker == old(worker)
      ensures View() == SqlHandle.EndTransaction(old(View()), commit, reply)
      ensures worker.returned == old(worker.returned) && SameSetting(old(Setting()))
    {
      if transactionOn {
        var sql := if commit then Commit else Rollback;
        log := SqlHandle.Snoc(log, SqlHandle.Ran(mysqlConn, sql, reply));
        var ret := worker.RunQuery(mysqlConn, sql, reply);
        if 0 > ret {
          reConn := true;
          transactionOn := false;
        }
        transactionOn := false;
      }
    }

    method StartTransaction(rollback: Reply, reply: Reply) returns (r: Result<()>)
      requires Alive()
      modifies this, worker
      ensures Alive() && worker == old(worker)
      ensures View() == SqlHandle.Start(old(View()), rollback, reply)
      ensures worker.returned == old(worker.returned) && SameSetting(old(Setting()))
      ensures r == if reply.Failed? then Err(MysqlError) else Ok(())
    {
      EndTransaction(false, rollback);
      log := SqlHandle.Snoc(log, SqlHandle.Ran(mysqlConn, Stmt.StartTransaction, reply));
      var ret := worker.RunQuery(mysqlConn, Stmt.StartTransaction, reply);
      if 0 > ret {
        reConn := true;
        return Err(MysqlError);
      }
      transactionOn := true;
      return Ok(());
    }

    /** query and _query; on success the affected rows are returned. */
    method QueryText(sql: string, reply: Reply) returns (r: Result<int>)
      requires Alive()
      modifies this, worker
      ensures Alive() && worker == old(worker)
      ensures View() == SqlHandle.RunText(old(View()), sql, reply)
      ensures worker.returned == old(worker.returned) && SameSetting(old(Setting()))
      ensures r == match reply case Done(rows) => Ok(rows) case Failed(_, _) => Err(MysqlError)
    {
      var buf, braced, bare := PrepareSql(sql, tableNo);
      log := SqlHandle.Snoc(log, SqlHandle.Ran(mysqlConn, Text(buf), reply));
      var ret := worker.RunQuery(mysqlConn, Text(buf), reply);
      if ret < 0 {
        reConn := true;
        return Err(MysqlError);
      }
      return Ok(ret);
    }

    /** _release_connection: requested is written to the log file, the field is passed on. */
    method ReleaseConnection(requested: bool)
      requires Alive()
      modifies this, worker
      ensures Alive() && worker == old(worker)
      ensures View() == SqlHandle.Release(old(View()))
      ensures worker.returned == old(worker.returned + GivenBack(mysqlConn, HandleKey(), reConn))
      ensures SameSetting(old(Setting()))
    {
      if mysqlConn.Some? {
        log := SqlHandle.Snoc(log, SqlHandle.PutBack(mysqlConn.value, HandleKey(), reConn));
        match dbType {
          case TypeId => worker.PutBackConnection(mysqlConn.value, ById(id), reConn);
          case TypeTag => worker.PutBackConnection(mysqlConn.value, ByTag(tag), reConn);
          case TypeDbid => worker.PutBackConnection(mysqlConn.value, ByDbid(id), reConn);
        }
      }
      mysqlConn := None;
    }

    method Reset(requested: bool, commit: bool, reply: Reply, proposal: Option<Conn>) returns (r: Result<()>)
      requires Alive()
      modifies this, worker
      ensures Alive() && worker == old(worker)
      ensures View() == SqlHandle.Reset(old(View()), commit, reply, proposal)
      ensures worker.returned ==
              old(worker.returned + GivenBack(mysqlConn, HandleKey(), reConn || (transactionOn && reply.Failed?)))
      ensures SameSetting(old(Setting()))
      ensures r == if mysqlConn.None? then Err(MysqlError) else Ok(())
    {
      EndTransaction(commit, reply);
      ReleaseConnection(requested);
      r := Refetch(proposal);
    }

    /** The second half of _reset. */
    method Refetch(proposal: Option<Conn>) returns (r: Result<()>)
      requires Alive()
      modifies this, worker
      ensures Alive() && worker == old(worker)
      ensures View() == SqlHandle.Acquire(old(View()), proposal)
      ensures worker.returned == old(worker.returned) && SameSetting(old(Setting()))
      ensures r == if mysqlConn.None? then Err(MysqlError) else Ok(())
    {
      match dbType {
        case TypeId => mysqlConn := worker.GetConnection(ById(id), proposal);
        case TypeTag => mysqlConn := worker.GetConnection(ByTag(tag), proposal);
        case TypeDbid => mysqlConn := worker.GetConnection(ByDbid(id), proposal);
      }
      if mysqlConn.None? {
        return Err(MysqlError);
      }
      log := SqlHandle.Snoc(log, SqlHandle.Took(mysqlConn.value, HandleKey()));
      return Ok(());
    }

    /** query_nothrow: a failed statement is reported by its code unless the reset throws. */
    method QueryTextNothrow(sql: string, reply: Reply, rollback: Reply, proposal: Option<Conn>) returns (r: Result<int>)
      requires Alive()
      modifies this, worker
      ensures Alive() && worker == old(worker)
      ensures View() == SqlHandle.RunTextNothrow(old(View()), sql, reply, rollback, proposal)
      ensures worker.returned ==
              old(worker.returned + if reply.Done? then []
                                    else GivenBack(mysqlConn, HandleKey(), reConn || (transactionOn && rollback.Failed?)))
      ensures SameSetting(old(Setting()))
      ensures r == if reply.Failed? && mysqlConn.None? then Err(MysqlError) else Ok(Ret(reply))
    {
      var buf, braced, bare := PrepareSql(sql, tableNo);
      log := SqlHandle.Snoc(log, SqlHandle.Ran(mysqlConn, Text(buf), reply));
      var ret := worker.RunQuery(mysqlConn, Text(buf), reply);
      if 0 > ret {
        var reset := Reset(true, false, rollback, proposal);
        if reset.Err? {
          return Err(reset.error);
        }
      }
      return Ok(ret);
    }

    /** The destructor; afterwards no method may be called. */
    method Destroy(rollback: Reply)
      requires Alive()
      modifies this, worker
      ensures !Alive() && worker == old(worker)
      ensures worker.View() == SqlHandle.Destroy(old(View()), rollback).server
      ensures log == SqlHandle.Destroy(old(View()), rollback).handle.log
      ensures worker.returned ==
              old(worker.returned + GivenBack(mysqlConn, HandleKey(), reConn || (transactionOn && rollback.Failed?)))
      ensures mysqlConn.None? && !transactionOn && !reConn
    {
      EndTransaction(false, rollback);
      ReleaseConnection(reConn);
      tableNo, dbNum, tbNum, mysqlConn := 0, 0, 0, None;
      dbType, tag, id, reConn, transactionOn := TypeInvalid, "", 0, false, false;
    }
  }
}
