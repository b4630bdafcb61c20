/**
 * Callers that wait until the document is durable: whenDurable and
 * resolveDurabilityWaiters of client/src/collab/esbt-engine.ts.
 *
 * A waiter is resolved when the status changes, or a retirement or a checkpoint reports,
 * and the page is durable then; it is rejected when the page stops.  This module says
 * exactly which steps make a page durable and leave its waiters waiting.
 */
module Waiters {
  import opened Wrappers
  import opened Journal
  import opened EngineSession
  import opened Pipeline
  import opened Durability
  import opened Guarantees
  import opened Departures

  /** The pipeline, and how many callers wait on its page. */
  datatype Watched = Watched(s: State, waiting: nat)

  datatype Happening = Occurs(event: Event) | Asks | GivesUp

  predicate Completes(s: State, e: Event)
    requires Possible(s, e)
  {
    e.JobReported? && s.lane.reports[e.k].succeeded && !s.lane.reports[e.k].job.Append?
  }

  /** Whether the step reaches resolveDurabilityWaiters on a durable page. */
  predicate Wakes(s: State, e: Event)
    requires Possible(s, e)
  {
    var t := Step(s, e);
    && s.page.Some? && t.page.Some? && IsDurable(t.page.value)
    && (t.page.value.status != s.page.value.status || Completes(s, e))
  }

  predicate MayHappen(w: Watched, h: Happening)
  {
    match h
    case Occurs(e) => Possible(w.s, e)
    case Asks => w.s.page.Some?
    case GivesUp => w.waiting > 0
  }

  /** Asking a durable page resolves at once, and asking a stopped one is rejected at once. */
  function Next(w: Watched, h: Happening): Watched
    requires MayHappen(w, h)
  {
    match h
    case Occurs(e) =>
      var t := Step(w.s, e);
      Watched(t, if t.page.None? || Stopped(t.page.value) || Wakes(w.s, e) then 0 else w.waiting)
    case Asks =>
      var p := w.s.page.value;
      if IsDurable(p) || Stopped(p) then w else w.(waiting := w.waiting + 1)
    case GivesUp => w.(waiting := w.waiting - 1)
  }

  /** Nobody waits for what already holds, or can no longer come. */
  predicate Settled(w: Watched)
  {
    w.waiting > 0 ==> w.s.page.Some? && !IsDurable(w.s.page.value) && !Stopped(w.s.page.value)
  }

  /**
   * The steps that make a page durable without a word: a frame that says synchronized to
   * a page that already reads connected, and a report of an append whose mutation the page
   * has let go of (reports may be heard in any order here).
   */
  predicate Silent(s: State, e: Event)
    requires Possible(s, e)
  {
    && s.page.Some? && Step(s, e).page.Some? && IsDurable(Step(s, e).page.value)
    && match e
       case Page(input) => input.Synced? && s.page.value.status.Connected?
       case JobReported(k, _) =>
         var report := s.lane.reports[k];
         report.succeeded && report.job.Append? && report.job.mutation !in s.page.value.pending
       case _ => false
  }

  lemma InputsWake(p: Page, input: Input)
    requires !IsDurable(p) && !Stopped(p)
    ensures var q := Handle(p, input).page;
      IsDurable(q) ==> q.status != p.status || (input.Synced? && p.status.Connected?)
  {
  }

  lemma ReportsWake(p: Page, job: Job, succeeded: bool, reply: MissingReply)
    requires !IsDurable(p) && !Stopped(p)
    ensures var q := JobDone(p, job, succeeded, reply).page;
      IsDurable(q) ==> succeeded && (job.Append? ==> job.mutation !in p.pending)
  {
  }

  /** Where nobody waited in vain, somebody does after a step exactly when somebody waited and the step is silent. */
  lemma StaysSettledIff(w: Watched, e: Event)
    requires Settled(w) && Possible(w.s, e)
    ensures Settled(Next(w, Occurs(e))) <==> !(w.waiting > 0 && Silent(w.s, e))
  {
    if w.waiting > 0 {
      var p := w.s.page.value;
      match e
      case Page(input) => InputsWake(p, input);
      case JobReported(k, reply) =>
        ReportsWake(p, w.s.lane.reports[k].job, w.s.lane.reports[k].succeeded, reply);
      case _ =>
    }
  }

  // ---------- Whole runs ----------

  ghost predicate WatchedRun(w: Watched, happenings: seq<Happening>)
    decreases |happenings|
  {
    happenings == [] ||
    (MayHappen(w, happenings[0])
     && (happenings[0].Occurs? ==> Honest(w.s, happenings[0].event) && OpenSucceeds(happenings[0].event))
     && WatchedRun(Next(w, happenings[0]), happenings[1..]))
  }

  function Later(w: Watched, happenings: seq<Happening>): Watched
    decreases |happenings|
  {
    if happenings == [] || !MayHappen(w, happenings[0]) then w else Later(Next(w, happenings[0]), happenings[1..])
  }

  ghost predicate NeverSilent(w: Watched, happenings: seq<Happening>)
    requires WatchedRun(w, happenings)
    decreases |happenings|
  {
    happenings == [] ||
    (!(happenings[0].Occurs? && w.waiting > 0 && Silent(w.s, happenings[0].event))
     && NeverSilent(Next(w, happenings[0]), happenings[1..]))
  }

  /** In a run without such a step, whenever the page is durable everyone who waited has been told. */
  lemma {:induction false} DurableTellsAll(w: Watched, happenings: seq<Happening>)
    requires Settled(w) && WatchedRun(w, happenings) && NeverSilent(w, happenings)
    ensures Settled(Later(w, happenings))
    decreases |happenings|
  {
    if happenings != [] {
      if happenings[0].Occurs? {
        StaysSettledIff(w, happenings[0].event);
      }
      DurableTellsAll(Next(w, happenings[0]), happenings[1..]);
    }
  }

  // ---------- A waiter that is not told ----------

  const FLUSH := Checkpoint(Record(1, {}, [EDIT], Some({7}), 1, 0))
  const HIDDEN := HEARD.(socket := Closed)
  const DIALED := HEARD.(pending := [], status := Connected, socket := Dialing, serverSynced := false)

  /**
   * The page is hidden while its last receipt is being retired, and comes back: the
   * retirement reports connected over the socket that is gone, and the next one is dialled.
   */
  const REDIALED := DURABLE.(page := Some(DIALED))

  lemma ReachHidden()
    ensures Reached(RETIRING.(page := Some(HIDDEN.(status := Connecting)),
                              lane := Lane([Ticket(DROP, false), Ticket(FLUSH, false)], None, false, [])))
  {
    ReachRetiring();
    ReachRequest(RETIRING, PageHidden, HIDDEN, FLUSH);
    var s := RETIRING.(page := Some(HIDDEN), lane := EnqueueOne(RETIRING.lane, FLUSH));
    assert EnqueueOne(RETIRING.lane, FLUSH).queue == [Ticket(DROP, false), Ticket(FLUSH, false)];
    ReachQuietly(s, ConnectStarts, HIDDEN.(status := Connecting));
  }

  lemma ReachRedialed()
    ensures Reached(REDIALED)
  {
    ReachHidden();
    var p, q := HIDDEN.(status := Connecting), DURABLE.page.value.(socket := Closed);
    var s := RETIRING.(page := Some(p), lane := Lane([Ticket(DROP, false), Ticket(FLUSH, false)], None, false, []));
    assert Without([EDIT], 1) == [];
    ReachWritten(s, DURABLE.stored.value);
    var s1 := s.(stored := DURABLE.stored, lane := Lane([Ticket(FLUSH, false)], None, false, [Report(DROP, true)]));
    assert Leave(s.lane, true) == s1.lane;
    assert JobDone(p, DROP, true, REPLY) == Quiet(q);
    ReachHeard(s1, REPLY, q);
    var s2 := DURABLE.(page := Some(q), lane := Queued(FLUSH));
    ReachWritten(s2, DURABLE.stored.value);
    var s3 := DURABLE.(page := Some(q), lane := Finished(FLUSH));
    assert Leave(s2.lane, true) == s3.lane;
    assert JobDone(q, FLUSH, true, REPLY) == Quiet(q);
    ReachHeard(s3, REPLY, q);
    ReachQuietly(DURABLE.(page := Some(q)), SocketDialed, DIALED);
  }

  /**
   * A reachable state in which a caller asks and waits, and a legal run after which the
   * page is durable and the caller still waits.
   */
  lemma WaiterIsNotTold()
    ensures exists s, happenings ::
      && Reached(s) && WatchedRun(Watched(s, 0), happenings)
      && var w := Later(Watched(s, 0), happenings);
      w.waiting == 1 && w.s.page.Some? && IsDurable(w.s.page.value)
  {
    ReachRedialed();
    var up, synced := DIALED.(socket := Open), DIALED.(socket := Open, serverSynced := true);
    var upEvent, toldEvent, syncedEvent := Event.Page(SocketUp), Event.Page(ServerVersion({7})), Event.Page(Synced(REPLY));
    QuietStep(REDIALED, SocketUp);
    QuietStep(REDIALED.(page := Some(up)), ServerVersion({7}));
    QuietStep(REDIALED.(page := Some(up)), Synced(REPLY));
    var w1, w2 := Watched(REDIALED, 1), Watched(REDIALED.(page := Some(up)), 1);
    var w3 := Watched(REDIALED.(page := Some(synced)), 1);
    assert Next(Watched(REDIALED, 0), Asks) == w1;
    assert Next(w1, Occurs(upEvent)) == w2 && Next(w2, Occurs(toldEvent)) == w2 && Next(w2, Occurs(syncedEvent)) == w3;
    var last := [Occurs(syncedEvent)];
    assert last[1..] == [] && WatchedRun(w3, []) && Later(w3, []) == w3;
    assert WatchedRun(w2, last) && Later(w2, last) == w3;
    var two := [Occurs(toldEvent)] + last;
    assert two[1..] == last && WatchedRun(w2, two) && Later(w2, two) == w3;
    var three := [Occurs(upEvent)] + two;
    assert three[1..] == two && WatchedRun(w1, three) && Later(w1, three) == w3;
    var all := [Asks] + three;
    assert all[1..] == three && WatchedRun(Watched(REDIALED, 0), all) && Later(Watched(REDIALED, 0), all) == w3;
  }
}
