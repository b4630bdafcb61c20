/**
 * Where the pipeline does not keep a promise: for each place the exact condition under
 * which it does, and a run that shows the failure.
 */
module Departures {
  import opened Wrappers
  import opened Journal
  import opened EngineSession
  import opened Pipeline
  import opened Durability
  import opened Guarantees
  import opened Outgoing

  // ---------- Building concrete runs ----------

  lemma {:induction false} RunExtends(s: State, events: seq<Event>, e: Event)
    requires Legal(s, events)
    requires var t := After(s, events); Possible(t, e) && Honest(t, e) && OpenSucceeds(e)
    ensures Legal(s, events + [e]) && After(s, events + [e]) == Step(After(s, events), e)
    decreases |events|
  {
    if events == [] {
      assert ([] + [e])[1..] == [] && Legal(Step(s, e), []);
      assert [] + [e] == [e];
    } else {
      RunExtends(Step(s, events[0]), events[1..], e);
      assert (events + [e])[1..] == events[1..] + [e];
    }
  }

  /** A state some legal run of a session reaches. */
  ghost predicate Reached(s: State)
  {
    exists events :: Legal(Initial(s.access), events) && After(Initial(s.access), events) == s
  }

  lemma ReachNext(s: State, e: Event)
    requires Reached(s) && Possible(s, e) && Honest(s, e) && OpenSucceeds(e)
    ensures Reached(Step(s, e))
  {
    var events :| Legal(Initial(s.access), events) && After(Initial(s.access), events) == s;
    RunExtends(Initial(s.access), events, e);
    RunAccess(s, [e]);
  }

  /** A page step that asks for nothing and sends nothing changes the page alone. */
  lemma QuietStep(s: State, input: Input)
    requires s.page.Some? && Possible(s, Event.Page(input))
    requires Handle(s.page.value, input) == Quiet(Handle(s.page.value, input).page)
    ensures Step(s, Event.Page(input)) == s.(page := Some(Handle(s.page.value, input).page))
  {
    var none: seq<Mutation> := [];
    assert (set m | m in none) == {};
    assert s.sent + {} == s.sent && s.mine + {} == s.mine;
  }

  /** A page step that makes one request and sends nothing. */
  lemma RequestStep(s: State, input: Input, next: Page, job: Job)
    requires s.page.Some? && Possible(s, Event.Page(input)) && Handle(s.page.value, input) == Effect(next, [job], [])
    ensures Step(s, Event.Page(input)) ==
      s.(page := Some(next), lane := EnqueueOne(s.lane, job), registry := Drawn(s.registry, [job]), mine := s.mine + DrawnIds([job]))
  {
    var none: seq<Mutation> := [];
    assert (set m | m in none) == {};
    assert s.sent + {} == s.sent;
    EnqueueAtMostOne(s.lane, [job]);
  }

  lemma ReachRequest(s: State, input: Input, next: Page, job: Job)
    requires Reached(s) && s.page.Some? && Possible(s, Event.Page(input)) && Honest(s, Event.Page(input))
    requires Handle(s.page.value, input) == Effect(next, [job], []) && !job.Append?
    ensures Reached(s.(page := Some(next), lane := EnqueueOne(s.lane, job)))
  {
    RequestStep(s, input, next, job);
    assert s.mine + {} == s.mine;
    ReachNext(s, Event.Page(input));
  }

  /** The head of the lane starts and is written, and the retry list holds no id it has not held before. */
  lemma ReachWritten(s: State, record: Record)
    requires Reached(s) && s.page.Some? && |s.lane.queue| > 0 && s.lane.started.None? && !s.lane.poisoned && !s.lane.queue[0].expired
    requires Written(s.stored, s.lane.queue[0].job, s.page.value.replica) == Ok(record) && IdsOf(record.pending) <= s.journaled
    ensures Reached(s.(stored := Some(record), lane := Leave(s.lane, true)))
  {
    var s1 := s.(lane := s.lane.(started := Some(s.page.value.replica)));
    assert Step(s, JobStarts) == s1;
    ReachNext(s, JobStarts);
    assert s.journaled + IdsOf(record.pending) == s.journaled;
    assert Leave(s1.lane, true) == Leave(s.lane, true);
    assert Step(s1, JobWritten) == s.(stored := Some(record), lane := Leave(s.lane, true));
    ReachNext(s1, JobWritten);
  }

  /** The page hears of the one report outstanding, and asks for nothing. */
  lemma ReachHeard(s: State, reply: MissingReply, next: Page)
    requires Reached(s) && s.page.Some? && |s.lane.reports| == 1 && Honest(s, JobReported(0, reply))
    requires JobDone(s.page.value, s.lane.reports[0].job, s.lane.reports[0].succeeded, reply) == Quiet(next)
    ensures Reached(s.(page := Some(next), lane := s.lane.(reports := [])))
  {
    var none: seq<Mutation> := [];
    assert (set m | m in none) == {} && s.sent + {} == s.sent && s.mine + {} == s.mine;
    assert s.lane.reports[..0] + s.lane.reports[1..] == [];
    ReachNext(s, JobReported(0, reply));
  }

  lemma ReachQuietly(s: State, input: Input, next: Page)
    requires Reached(s) && s.page.Some? && Possible(s, Event.Page(input)) && Honest(s, Event.Page(input))
    requires Handle(s.page.value, input) == Quiet(next)
    ensures Reached(s.(page := Some(next)))
  {
    QuietStep(s, input);
    ReachNext(s, Event.Page(input));
  }

  // ---------- A run that ends durable ----------

  const EDIT := Mutation(1, Update, {7})
  const REPLY := MissingReply(true, {7}, Update, 2)
  const DRAFT := Blank(true, 1).(replica := {7}, pending := [EDIT])
  const SAVE := Checkpoint(Record(1, {}, [], None, 0, 0))
  const ADD := Append(EDIT, Record(1, {}, [EDIT], None, 0, 0))
  const DROP := Retire(1, {7}, 1, true, Record(1, {}, [EDIT], Some({7}), 1, 0))
  const ONLINE := DRAFT.(socket := Open, serverVersion := Some({}), serverSynced := true, status := Saving)

  function Queued(job: Job): Lane { Lane([Ticket(job, false)], None, false, []) }
  function Finished(job: Job): Lane { Lane([], None, false, [Report(job, true)]) }

  /** The edit is drawn offline, and its journal append waits in the lane. */
  function Drafted(page: Page): State
  {
    State(true, Some(page), Queued(ADD), None, Server({}, map[]), map[1 := EDIT], {}, {1}, {})
  }

  const BLANK := Initial(true).(page := Some(Blank(true, 1)))

  lemma ReachBlank()
    ensures Reached(BLANK)
  {
    var s := Initial(true);
    assert Legal(s, []) && After(s, []) == s;
    assert Step(s, Opened(true, 1)) == BLANK;
    ReachNext(s, Opened(true, 1));
  }

  /** The first edit on a blank page, whatever its lane already holds and whatever is stored. */
  lemma FirstEdit(lane: Lane, stored: Option<Record>)
    requires Reached(BLANK.(lane := lane, stored := stored))
    ensures Reached(Drafted(DRAFT).(lane := EnqueueOne(lane, ADD), stored := stored))
  {
    var s, edit := BLANK.(lane := lane, stored := stored), Event.Page(Edit({7}, 1));
    var ops: set<Op>, pending: seq<Mutation>, mine: set<nat> := {}, [], {};
    assert ops + {7} == {7} && pending + [EDIT] == [EDIT] && mine + {1} == {1};
    assert LocalEdit(Blank(true, 1), {7}, 1) == Effect(DRAFT, [ADD], []);
    RequestStep(s, Edit({7}, 1), DRAFT, ADD);
    ReachNext(s, edit);
  }

  lemma ReachDrafted()
    ensures Reached(Drafted(DRAFT))
  {
    ReachBlank();
    FirstEdit(EMPTY_LANE, None);
  }

  /** The page connects, and synchronizing sends the edit whose append is still unwritten. */
  const SENT := Drafted(ONLINE).(sent := {EDIT})

  lemma ReachSent()
    ensures Reached(SENT)
  {
    ReachDrafted();
    ReachQuietly(Drafted(DRAFT), SocketDialed, DRAFT.(socket := Dialing));
    ReachQuietly(Drafted(DRAFT.(socket := Dialing)), SocketUp, DRAFT.(socket := Open));
    ReachQuietly(Drafted(DRAFT.(socket := Open)), ServerVersion({}), DRAFT.(socket := Open, serverVersion := Some({})));
    var s := Drafted(DRAFT.(socket := Open, serverVersion := Some({})));
    assert OnSynced(s.page.value, REPLY) == Effect(ONLINE, [], [EDIT]);
    assert (set m | m in [EDIT]) == {EDIT};
    assert Step(s, Event.Page(Synced(REPLY))) == SENT;
    ReachNext(s, Event.Page(Synced(REPLY)));
  }

  /** The append is written, the server commits the edit, and the page hears of the append. */
  const COMMITTED := SENT.(
    lane := EMPTY_LANE,
    stored := Some(Record(1, {}, [EDIT], None, 0, 0)),
    journaled := {1},
    server := Server({7}, map[1 := {7}]),
    page := Some(ONLINE.(localSaved := true)))

  lemma ReachCommitted()
    ensures Reached(COMMITTED)
  {
    ReachSent();
    var s1 := SENT.(lane := SENT.lane.(started := Some({7})));
    assert Step(SENT, JobStarts) == s1;
    ReachNext(SENT, JobStarts);
    var s2 := SENT.(lane := Finished(ADD), stored := COMMITTED.stored, journaled := {1});
    assert IdsOf([EDIT]) == {1};
    assert Written(None, ADD, {7}) == Ok(Record(1, {}, [EDIT], None, 0, 0));
    assert Step(s1, JobWritten) == s2;
    ReachNext(s1, JobWritten);
    var s3 := s2.(server := COMMITTED.server);
    assert Step(s2, ServerCommits(EDIT)) == s3;
    ReachNext(s2, ServerCommits(EDIT));
    assert JobDone(ONLINE, ADD, true, REPLY) == Effect(ONLINE.(localSaved := true), [], [EDIT]);
    assert (set m | m in [EDIT]) == {EDIT};
    assert Step(s3, JobReported(0, REPLY)) == COMMITTED;
    ReachNext(s3, JobReported(0, REPLY));
  }

  const HEARD := ONLINE.(localSaved := true, acked := Some({7}), serverVersion := Some({7}), revision := 1)
  const RETIRING := COMMITTED.(page := Some(HEARD), lane := Queued(DROP))

  lemma ReachRetiring()
    ensures Reached(RETIRING)
  {
    ReachCommitted();
    assert OnCommitted(ONLINE.(localSaved := true), 1, {7}, 1) == Effect(HEARD, [DROP], []);
    ReachRequest(COMMITTED, Committed(1, {7}, 1), HEARD, DROP);
  }

  const DURABLE := RETIRING.(
    lane := EMPTY_LANE,
    stored := Some(Record(1, {7}, [], Some({7}), 1, 0)),
    page := Some(HEARD.(pending := [], status := Connected)))

  /** The receipt retires the edit, and the page, holding just what the server has, is durable. */
  lemma ReachDurable()
    ensures Reached(DURABLE) && IsDurable(DURABLE.page.value)
  {
    ReachRetiring();
    assert Without([EDIT], 1) == [];
    ReachWritten(RETIRING, DURABLE.stored.value);
    var s := RETIRING.(lane := Finished(DROP), stored := DURABLE.stored);
    assert JobDone(HEARD, DROP, true, REPLY) == Quiet(DURABLE.page.value);
    ReachHeard(s, REPLY, DURABLE.page.value);
  }

  lemma DurableIsReachable()
    ensures exists s :: Reached(s) && s.access && s.page.Some? && IsDurable(s.page.value) && s.page.value.replica == {7}
  {
    ReachDurable();
  }

  // ---------- Sent before it is journaled ----------

  /** A mutation can reach the server although no restart could rebuild it. */
  lemma SentBeforeJournaled()
    ensures exists s ::
      && Reached(s) && EDIT in s.sent && EDIT.id !in s.journaled
      && EDIT.id in s.server.receipts && !(EDIT.ops <= Holds(s.stored))
  {
    ReachSent();
    var t := SENT.(server := Server({7}, map[1 := {7}]));
    assert Step(SENT, ServerCommits(EDIT)) == t;
    ReachNext(SENT, ServerCommits(EDIT));
    assert 7 in EDIT.ops;
  }

  /** A tab snapshot hands the retry list over just as synchronizing does, stored or not. */
  lemma TabSnapshotSendsBeforeJournaled()
    ensures exists s, ops, id, reply ::
      var e := Event.Page(TabImport(ops, false, id, reply));
      Reached(s) && Possible(s, e) && Honest(s, e) && EDIT in Handed(s, e) && EDIT.id !in s.journaled
  {
    ReachSent();
    var e := Event.Page(TabImport({7}, false, 3, REPLY));
    var replica: set<Op> := {7};
    assert replica + {7} == replica;
    assert Possible(SENT, e) && Honest(SENT, e) && HandsOverPending(SENT, e);
    HandedIs(SENT, e);
  }

  /** The append times out while its write goes on detached; the lane then looks the same whether it lands or not. */
  const DETACHED := SENT.(lane := Lane([Ticket(ADD, true)], Some({7}), true, [Report(ADD, false)]))
  const UNHEARD := Lane([], None, true, [Report(ADD, false)])

  lemma ReachDetached()
    ensures Reached(DETACHED)
  {
    ReachSent();
    var s1 := SENT.(lane := SENT.lane.(started := Some({7})));
    assert Step(SENT, JobStarts) == s1;
    ReachNext(SENT, JobStarts);
    assert Step(s1, JobExpires(0)) == DETACHED;
    ReachNext(s1, JobExpires(0));
  }

  /**
   * Once an append has failed unheard, nothing the page and its lane hold decides whether
   * what is handed over could be rebuilt: two reachable states agree on both, hand over
   * the same mutation on the same event, and differ in that.
   */
  lemma FailedAppendIsUndecidable()
    ensures exists s, t, e ::
      && Reached(s) && Reached(t) && s.page == t.page && s.lane == t.lane
      && Possible(s, e) && Possible(t, e) && EDIT in Handed(s, e) && EDIT in Handed(t, e)
      && EDIT.ops <= Holds(s.stored) && !(EDIT.ops <= Holds(t.stored))
  {
    ReachDetached();
    var record := Record(1, {}, [EDIT], None, 0, 0);
    var s := DETACHED.(lane := UNHEARD, stored := Some(record), journaled := {1});
    assert Written(None, ADD, {7}) == Ok(record);
    assert IdsOf([EDIT]) == {1};
    assert Step(DETACHED, JobWritten) == s;
    ReachNext(DETACHED, JobWritten);
    var t := DETACHED.(lane := UNHEARD);
    assert Step(DETACHED, JobBreaks) == t;
    ReachNext(DETACHED, JobBreaks);
    var e := Event.Page(Synced(REPLY));
    HandedIs(s, e);
    HandedIs(t, e);
    assert EDIT in record.pending && EDIT.ops <= OpsOf(record.pending);
    assert 7 in EDIT.ops;
  }

  /** A checkpoint asked for before the edit is written, its snapshot taken before the edit or after it. */
  function Saved(snapshot: set<Op>, page: Page): State
  {
    Drafted(page).(lane := Lane([Ticket(ADD, false)], None, false, [Report(SAVE, true)]),
                   stored := Some(Record(1, snapshot, [], None, 0, 0)))
  }

  lemma ReachSavedAfter()
    ensures Reached(Saved({7}, DRAFT))
  {
    ReachBlank();
    ReachRequest(BLANK, SaveDue, Blank(true, 1), SAVE);
    FirstEdit(Queued(SAVE), None);
    var s := Drafted(DRAFT).(lane := Lane([Ticket(SAVE, false), Ticket(ADD, false)], None, false, []));
    assert EnqueueOne(Queued(SAVE), ADD) == s.lane;
    ReachWritten(s, Record(1, {7}, [], None, 0, 0));
  }

  lemma ReachSavedBefore()
    ensures Reached(Saved({}, DRAFT))
  {
    ReachBlank();
    ReachRequest(BLANK, SaveDue, Blank(true, 1), SAVE);
    var stored := Some(Record(1, {}, [], None, 0, 0));
    ReachWritten(BLANK.(lane := Queued(SAVE)), stored.value);
    assert Leave(Queued(SAVE), true) == Finished(SAVE);
    FirstEdit(Finished(SAVE), stored);
    assert EnqueueOne(Finished(SAVE), ADD) == Saved({}, DRAFT).lane;
  }

  const HELLO := DRAFT.(socket := Open, serverVersion := Some({}))

  lemma ReachHello(snapshot: set<Op>)
    requires Reached(Saved(snapshot, DRAFT))
    ensures Reached(Saved(snapshot, HELLO))
  {
    ReachQuietly(Saved(snapshot, DRAFT), SocketDialed, DRAFT.(socket := Dialing));
    ReachQuietly(Saved(snapshot, DRAFT.(socket := Dialing)), SocketUp, DRAFT.(socket := Open));
    ReachQuietly(Saved(snapshot, DRAFT.(socket := Open)), ServerVersion({}), HELLO);
  }

  /**
   * Nor does anything they hold decide it while an append waits in the lane: a checkpoint
   * written meanwhile may hold the edit or not.  So the durable retry list, and not what
   * is recoverable, is what a guard of page and lane can speak of.
   */
  lemma QueuedAppendIsUndecidable()
    ensures exists s, t, e ::
      && Reached(s) && Reached(t) && s.page == t.page && s.lane == t.lane && EDIT in QueuedAppends(s.lane)
      && Possible(s, e) && Possible(t, e) && EDIT in Handed(s, e) && EDIT in Handed(t, e)
      && EDIT.ops <= Holds(s.stored) && !(EDIT.ops <= Holds(t.stored))
  {
    ReachSavedAfter();
    ReachSavedBefore();
    ReachHello({7});
    ReachHello({});
    var s, t, e := Saved({7}, HELLO), Saved({}, HELLO), Event.Page(Synced(REPLY));
    HandedIs(s, e);
    HandedIs(t, e);
    assert Ticket(ADD, false) in s.lane.queue;
    assert Recoverable(s.stored.value) == {7} && Recoverable(t.stored.value) == {};
    assert 7 in EDIT.ops;
  }

  /** The other path always keeps the comment: what is sent after an append was written first. */
  lemma AppendSendsJournaled(events: seq<Event>, k: nat, reply: MissingReply, m: Mutation)
    requires Legal(Initial(true), events)
    requires var s := After(Initial(true), events);
      && Possible(s, JobReported(k, reply)) && s.lane.reports[k].job.Append?
      && m in JobDone(s.page.value, s.lane.reports[k].job, s.lane.reports[k].succeeded, reply).sends
    ensures m.id in After(Initial(true), events).journaled
  {
    RunKeepsInv(Initial(true), events);
    var s := After(Initial(true), events);
    assert s.lane.reports[k] in s.lane.reports;
  }

  // ---------- A snapshot that cannot be applied ----------

  /**
   * Opening a record whose snapshot does not apply ends in a checkpoint of an empty
   * replica.  What was recoverable survives exactly when the retry list already held
   * the whole snapshot.
   */
  lemma FailedOpenKeepsIff(s: State, record: Record, role: nat)
    requires s.page.None? && s.lane == EMPTY_LANE && s.stored == Some(record)
    ensures var t := After(s, [Opened(false, role), JobStarts, JobWritten]);
      && Holds(t.stored) == OpsOf(record.pending)
      && (Holds(s.stored) <= Holds(t.stored) <==> record.snapshot <= OpsOf(record.pending))
  {
    var f := FailedOpen(s.access, record);
    EnqueueAtMostOne(EMPTY_LANE, f.jobs);
    var s1 := Step(s, Opened(false, role));
    var s2 := Step(s1, JobStarts);
    var s3 := Step(s2, JobWritten);
    assert s3.stored == Some(record.(snapshot := {}));
    assert [Opened(false, role), JobStarts, JobWritten][1..] == [JobStarts, JobWritten];
    assert [JobStarts, JobWritten][1..] == [JobWritten] && [JobWritten][1..] == [];
    assert After(s2, [JobWritten]) == s3 && After(s1, [JobStarts, JobWritten]) == s3;
  }

  // ---------- Synchronized before the server's version is known ----------

  /** The server told its version may be the one known, and anything more. */
  predicate MayBeCommitted(p: Page, committed: set<Op>)
  {
    p.serverVersion.Some? ==> p.serverVersion.value <= committed
  }

  /**
   * A saved idle page is told that it is synchronized.  Whatever the server has committed,
   * the answer is honest, exactly when the server's version is known or the replica empty.
   */
  lemma SyncedIsHonestIff(p: Page, reply: MissingReply)
    requires p.access && !Stopped(p) && p.pending == [] && p.localSaved
    requires p.serverVersion.Some? ==> reply.succeeds && p.replica - p.serverVersion.value <= reply.payload <= p.replica
    ensures var q := OnSynced(p, reply).page;
      (forall committed :: MayBeCommitted(p, committed) ==> (IsDurable(q) ==> q.replica <= committed))
      <==> p.serverVersion.Some? || p.replica == {}
  {
    var q := OnSynced(p, reply).page;
    if p.serverVersion.Some? {
      var version := p.serverVersion.value;
      assert forall x :: x in p.replica && x !in version ==> x in p.replica - version;
    } else {
      assert MayBeCommitted(p, {}) && IsDurable(q);
    }
  }

  /** A tab snapshot is imported and saved before the server has been heard of. */
  const IMPORTED := Blank(true, 1).(replica := {7})
  const UNHEARD_OF := Initial(true).(page := Some(IMPORTED.(localSaved := true, socket := Open)),
                                     stored := Some(Record(1, {7}, [], None, 0, 0)))

  lemma ReachImported()
    ensures Reached(Initial(true).(page := Some(IMPORTED), lane := Queued(SAVE)))
  {
    ReachBlank();
    var ops: set<Op> := {};
    assert ops + {7} == {7};
    ReachQuietly(BLANK, TabImport({7}, false, 3, REPLY), IMPORTED);
    ReachRequest(BLANK.(page := Some(IMPORTED)), SaveDue, IMPORTED, SAVE);
  }

  lemma ReachUnheardOf()
    ensures Reached(UNHEARD_OF)
  {
    ReachImported();
    var s := Initial(true).(page := Some(IMPORTED), lane := Queued(SAVE));
    ReachWritten(s, UNHEARD_OF.stored.value);
    var saved := IMPORTED.(localSaved := true);
    var s1 := Initial(true).(page := Some(saved), stored := UNHEARD_OF.stored);
    ReachHeard(s.(stored := UNHEARD_OF.stored, lane := Finished(SAVE)), REPLY, saved);
    ReachQuietly(s1, SocketDialed, saved.(socket := Dialing));
    ReachQuietly(s1.(page := Some(saved.(socket := Dialing))), SocketUp, saved.(socket := Open));
  }

  /** One frame out of order after a legal run, and the page reports durable what no server has. */
  lemma UncheckedSyncIsDishonest()
    ensures exists s, reply ::
      var e := Event.Page(Synced(reply));
      && Reached(s) && Possible(s, e) && Step(s, e).page.Some?
      && IsDurable(Step(s, e).page.value) && !(Step(s, e).page.value.replica <= Step(s, e).server.committed)
  {
    ReachUnheardOf();
    var e := Event.Page(Synced(REPLY));
    var q := IMPORTED.(localSaved := true, socket := Open, serverSynced := true, status := Connected);
    assert OnSynced(UNHEARD_OF.page.value, REPLY) == Quiet(q);
    QuietStep(UNHEARD_OF, Synced(REPLY));
    assert 7 in q.replica;
  }

  // ---------- An export that fails ----------

  /**
   * A durable page takes in a tab snapshot.  All it knows of the server is the version it
   * was told and that its own replica is committed.  Whatever more the server has, the page
   * stays honest, exactly when the export succeeds or the snapshot brings nothing beyond that.
   */
  lemma FailedExportIsHonestIff(p: Page, ops: set<Op>, id: nat, reply: MissingReply)
    requires p.access && IsDurable(p) && p.serverVersion.Some?
    requires reply.succeeds ==> p.replica + ops - p.serverVersion.value <= reply.payload <= p.replica + ops
    ensures var q := ImportFromTab(p, ops, false, id, reply).page;
      (forall committed :: p.serverVersion.value + p.replica <= committed ==> (IsDurable(q) ==> q.replica <= committed))
      <==> reply.succeeds || ops <= p.serverVersion.value + p.replica
  {
    var version, known := p.serverVersion.value, p.serverVersion.value + p.replica;
    var q := ImportFromTab(p, ops, false, id, reply).page;
    if reply.succeeds {
      assert forall x :: x in p.replica + ops && x !in version ==> x in p.replica + ops - version;
    } else if !(ops <= known) {
      var x :| x in ops && x !in known;
      assert x in q.replica && x !in version && IsDurable(q) && known <= known;
    }
  }

  /** After a legal run that ended durable, one failed export leaves the page durable over what no server has. */
  lemma FailedExportIsDishonest()
    ensures exists s, ops, id, reply ::
      var e := Event.Page(TabImport(ops, false, id, reply));
      && Reached(s) && s.page.Some? && IsDurable(s.page.value) && Possible(s, e) && Step(s, e).page.Some?
      && IsDurable(Step(s, e).page.value) && !(Step(s, e).page.value.replica <= Step(s, e).server.committed)
  {
    ReachDurable();
    var lost := MissingReply(false, {}, Update, 5);
    var p := DURABLE.page.value;
    assert ImportFromTab(p, {9}, false, 6, lost) == Quiet(p.(replica := p.replica + {9}));
    QuietStep(DURABLE, TabImport({9}, false, 6, lost));
    assert 9 in p.replica + {9} && 9 !in DURABLE.server.committed;
  }
}
