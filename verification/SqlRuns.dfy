/** Runs of the system at which a promise of LnmcsysDb fails. */
module SqlRuns {
  import opened Wrappers
  import opened Arith
  import opened Sharding
  import opened SqlServer
  import opened TableRewrite
  import opened SqlHandle
  import opened SqlSystem

  /** A handle on one database with one table. */
  const ONE_TABLE := Opening(ById(0), 1, 1, (tag: string) => 0, true)

  /** The system after handle 0 was constructed with ONE_TABLE on connection 7. */
  function Opened7(tagSize: TagSize): System {
    Step(Idle(tagSize), Construct(0, ONE_TABLE, Some(7)))
  }

  lemma Opened7Is(tagSize: TagSize)
    ensures var sys := Opened7(tagSize);
            && sys.handles == map[0 := NewHandle(ById(0), 0, 7, ById(0))]
            && sys.server == Server(map[], map[7 := ById(0)], []) && !sys.stopped && sys.closed == []
  {
  }

  lemma PreparedLetter(c: char)
    requires c == 'x' || c == 'y'
    ensures Prepared([c], 0) == [c]
  {
    assert forall i | 0 <= i <= 1 :: [c][i..] == if i == 0 then [c] else "";
    NothingToExpand([c], BRACED, BARE, "0");
  }

  lemma FourSteps(sys: System, a: Call, b: Call, c: Call, d: Call)
    ensures Steps(sys, [a, b, c, d]) == Step(Step(Step(Step(sys, a), b), c), d)
  {
    var s1 := Step(sys, a);
    var s2 := Step(s1, b);
    var s3 := Step(s2, c);
    assert Steps(sys, [a, b, c, d]) == Steps(s1, [b, c, d]) by { assert [a, b, c, d][1..] == [b, c, d]; }
    assert Steps(s1, [b, c, d]) == Steps(s2, [c, d]) by { assert [b, c, d][1..] == [c, d]; }
    assert Steps(s2, [c, d]) == Steps(s3, [d]) by { assert [c, d][1..] == [d]; }
    assert Steps(s3, [d]) == Steps(Step(s3, d), []) by { assert [d][1..] == []; }
  }

  const START_DONE := Use(0, StartAction(Done(0), Done(0)))

  /** A nested start whose ROLLBACK is ignored commits the text though nobody asked for it. */
  lemma NestedStartCanCommit(tagSize: TagSize)
    ensures var calls := [Construct(0, ONE_TABLE, Some(7)), START_DONE, Use(0, QueryAction("x", Done(1))),
                          Use(0, StartAction(Failed(0, Ignored), Done(0)))];
            Steps(Idle(tagSize), calls).server.committed == ["x"]
  {
    var c1, c3 := Construct(0, ONE_TABLE, Some(7)), Use(0, QueryAction("x", Done(1)));
    var c4 := Use(0, StartAction(Failed(0, Ignored), Done(0)));
    PreparedLetter('x');
    Opened7Is(tagSize);
    var s2 := Step(Opened7(tagSize), START_DONE);
    var s3 := Step(s2, c3);
    assert s3.server.sessions[7] == Session(true, ["x"]);
    assert Step(s3, c4).server.committed == ["x"];
    FourSteps(Idle(tagSize), c1, START_DONE, c3, c4);
  }

  /** So does a start that is not nested, after a rollback the caller asked for was ignored. */
  lemma FlatStartCanCommit(tagSize: TagSize)
    ensures var calls := [Construct(0, ONE_TABLE, Some(7)), START_DONE, Use(0, QueryAction("x", Done(1))),
                          Use(0, EndAction(false, Failed(0, Ignored)))];
            var sys := Steps(Idle(tagSize), calls);
            && 0 in sys.handles && !sys.handles[0].transactionOn && sys.server.committed == []
            && Step(sys, START_DONE).server.committed == ["x"]
  {
    var c1, c3 := Construct(0, ONE_TABLE, Some(7)), Use(0, QueryAction("x", Done(1)));
    var c4 := Use(0, EndAction(false, Failed(0, Ignored)));
    PreparedLetter('x');
    Opened7Is(tagSize);
    var s2 := Step(Opened7(tagSize), START_DONE);
    var s3 := Step(s2, c3);
    assert s3.server.sessions[7] == Session(true, ["x"]);
    var s4 := Step(s3, c4);
    assert s4.server.sessions[7] == Session(true, ["x"]);
    assert Step(s4, START_DONE).server.committed == ["x"];
    FourSteps(Idle(tagSize), c1, START_DONE, c3, c4);
  }

  /** After a statement that cost the transaction, the next one is committed though the caller then rolls back. */
  lemma OrphanedTextStays(tagSize: TagSize)
    ensures var calls := [Construct(0, ONE_TABLE, Some(7)), START_DONE, Use(0, QueryAction("x", Failed(0, Aborted))),
                          Use(0, QueryAction("y", Done(1)))];
            var sys := Steps(Idle(tagSize), calls);
            && 0 in sys.handles && sys.handles[0].transactionOn
            && Step(sys, Use(0, EndAction(false, Done(0)))).server.committed == ["y"]
  {
    var c1, c3 := Construct(0, ONE_TABLE, Some(7)), Use(0, QueryAction("x", Failed(0, Aborted)));
    var c4 := Use(0, QueryAction("y", Done(1)));
    PreparedLetter('y');
    Opened7Is(tagSize);
    var s2 := Step(Opened7(tagSize), START_DONE);
    var s3 := Step(s2, c3);
    assert s3.server.sessions[7] == IDLE;
    var s4 := Step(s3, c4);
    assert s4.server.committed == ["y"];
    FourSteps(Idle(tagSize), c1, START_DONE, c3, c4);
  }

  /** After a COMMIT that failed without effect, a successful statement is lost when the handle is destroyed. */
  lemma TextCanBeLost(tagSize: TagSize)
    ensures var calls := [Construct(0, ONE_TABLE, Some(7)), START_DONE, Use(0, EndAction(true, Failed(0, Ignored))),
                          Use(0, QueryAction("x", Done(1)))];
            var sys := Steps(Idle(tagSize), calls);
            && sys.server.committed == []
            && Step(sys, Use(0, CloseAction(Done(0)))).server.committed == []
            && SessionOf(Step(sys, Use(0, CloseAction(Done(0)))).server, 7) == IDLE
  {
    var c1, c3 := Construct(0, ONE_TABLE, Some(7)), Use(0, EndAction(true, Failed(0, Ignored)));
    var c4 := Use(0, QueryAction("x", Done(1)));
    Opened7Is(tagSize);
    var s2 := Step(Opened7(tagSize), START_DONE);
    var s3 := Step(s2, c3);
    assert s3.server.sessions[7] == Session(true, []);
    var s4 := Step(s3, c4);
    assert s4.server.committed == [];
    FourSteps(Idle(tagSize), c1, START_DONE, c3, c4);
  }

  /** A failed query_nothrow puts its connection back without the reconnect flag that it asks for. */
  lemma FailedNothrowNotReconnected(tagSize: TagSize)
    ensures var sys := Step(Opened7(tagSize), Use(0, NothrowAction("x", Failed(0, Ignored), Done(0), Some(8))));
            0 in sys.handles && LastReturn(sys.handles[0].log) == Some(PutBack(7, ById(0), false))
  {
    Opened7Is(tagSize);
    FailedNothrowReconnectsIff(State(Opened7(tagSize).server, Opened7(tagSize).handles[0]), "x",
                               Failed(0, Ignored), Done(0), Some(8));
  }

  /** A count of zero is rejected after the connection was taken: it stays lent out with no holder. */
  lemma ZeroCountLeaks(tagSize: TagSize)
    ensures var sys := Step(Idle(tagSize), Construct(0, ONE_TABLE.(tbNum := 0), Some(7)));
            sys.handles == map[] && sys.leaked == {7} && sys.server.lent.Keys == {7} && !sys.stopped
  {
  }

  /** Two counts that are accepted and stop the program. */
  lemma WrappedCountsStop(tagSize: TagSize)
    ensures Step(Idle(tagSize), Construct(0, ONE_TABLE.(dbNum := TWO32, tbNum := TWO32), Some(7))).stopped
  {
  }

  /** A tag as long as its array: the connection goes back under another key than it was taken with. */
  lemma LongTagMisplaced(tagSize: TagSize, tag: string)
    requires |tag| == tagSize
    ensures var made := Step(Idle(tagSize), Construct(0, ONE_TABLE.(key := ByTag(tag)), Some(7)));
            var sys := Step(made, Use(0, CloseAction(Done(0))));
            && 7 in made.server.lent && made.server.lent[7] == ByTag(tag)
            && |sys.closed| == 1
            && LastReturn(sys.closed[0]) == Some(PutBack(7, ByTag(tag[..tagSize - 1]), false))
            && !TrackOf(sys.closed[0]).keyed
  {
    var made := Step(Idle(tagSize), Construct(0, ONE_TABLE.(key := ByTag(tag)), Some(7)));
    var stored := ByTag(tag[..tagSize - 1]);
    assert StoredKey(ByTag(tag), tagSize) == stored;
    assert made.handles == map[0 := NewHandle(stored, 0, 7, ByTag(tag))];
    var log := Snoc(Empty, Took(7, ByTag(tag)));
    assert TrackOf(log).held == Some((7, ByTag(tag)));
    assert |tag[..tagSize - 1]| != |tag|;
    assert !TrackOf(Snoc(log, PutBack(7, stored, false))).keyed;
  }
}
