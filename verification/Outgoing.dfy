/**
 * What goes out on the socket, and whether a restart could rebuild it.
 *
 * The engine's comment asks that the network never see an edit that is not yet in the
 * durable retry list (client/src/collab/esbt-engine.ts:1495-1499).  This module follows
 * every append from the moment it is requested to the moment it is written or fails,
 * and says exactly when the mutations handed to the socket meet that.
 */
module Outgoing {
  import opened Wrappers
  import opened Journal
  import opened EngineSession
  import opened Pipeline
  import opened Durability
  import opened Guarantees

  // ---------- Where an append can be ----------

  /** The mutations whose append still waits in the lane, or is at work there. */
  function QueuedAppends(lane: Lane): set<Mutation>
  {
    set t | t in lane.queue && t.job.Append? :: t.job.mutation
  }

  /** The mutations whose append has failed without the page having heard of it. */
  function FailedAppends(lane: Lane): set<Mutation>
  {
    set r | r in lane.reports && !r.succeeded && r.job.Append? :: r.job.mutation
  }

  /** What is stored as pending counts as having been in the stored retry list. */
  ghost predicate Tailed(s: State)
  {
    s.stored.Some? ==> forall m :: m in s.stored.value.pending ==> m.id in s.journaled
  }

  /** On a page without a storage failure every pending mutation is stored, on its way, or has failed unheard. */
  ghost predicate Accounted(s: State)
  {
    s.page.Some? && !s.page.value.storageFatal ==>
      && (forall m :: m in s.page.value.pending ==>
            m.id in s.journaled || m in QueuedAppends(s.lane) || m in FailedAppends(s.lane))
      && (forall t :: t in s.lane.queue && t.expired && t.job.Append? ==> t.job.mutation in FailedAppends(s.lane))
  }

  predicate Unaware(job: Job, id: nat)
  {
    && (forall m :: m in job.fallback.pending ==> m.id != id)
    && (job.Append? ==> job.mutation.id != id)
  }

  /** A queued append is not stored, and nothing ahead of it in the lane could store its mutation. */
  ghost predicate Waiting(s: State)
  {
    forall k :: 0 <= k < |s.lane.queue| && s.lane.queue[k].job.Append? ==>
      && s.lane.queue[k].job.mutation.id !in s.journaled
      && forall j :: 0 <= j < k ==> Unaware(s.lane.queue[j].job, s.lane.queue[k].job.mutation.id)
  }

  ghost predicate Tracked(s: State) { Tailed(s) && Accounted(s) && Waiting(s) }

  // ---------- Page steps ----------

  /** A storage failure is never undone on a page. */
  lemma FailureStays(p: Page, input: Input)
    ensures p.storageFatal ==> Handle(p, input).page.storageFatal
  {
  }

  lemma FailureStaysAfter(p: Page, job: Job, succeeded: bool, reply: MissingReply)
    ensures p.storageFatal || !succeeded ==> JobDone(p, job, succeeded, reply).page.storageFatal
  {
  }

  lemma AbsorbAccounted(s: State, p: Page, f: Effect)
    requires Consistent(s) && s.page == Some(p) && Sound(s, p, f)
    requires f.page.storageFatal || (Accounted(s) && !p.storageFatal)
    ensures Accounted(Absorb(s, f))
  {
    EnqueueAtMostOne(s.lane, f.jobs);
    var t := Absorb(s, f);
    assert forall x :: x in s.lane.queue ==> x in t.lane.queue;
    assert forall r :: r in s.lane.reports ==> r in t.lane.reports;
    if f.jobs != [] && f.jobs[0].Append? {
      var job := f.jobs[0];
      if s.lane.poisoned {
        assert Report(job, false) in t.lane.reports;
      } else {
        assert Ticket(job, false) in t.lane.queue;
      }
    }
  }

  lemma AbsorbWaiting(s: State, p: Page, f: Effect)
    requires Consistent(s) && Waiting(s) && s.page == Some(p) && Sound(s, p, f)
    ensures Waiting(Absorb(s, f))
  {
    EnqueueAtMostOne(s.lane, f.jobs);
    var t := Absorb(s, f);
    var n := |s.lane.queue|;
    if f.jobs != [] && f.jobs[0].Append? && !s.lane.poisoned {
      var id := f.jobs[0].mutation.id;
      forall j | 0 <= j < n
        ensures Unaware(s.lane.queue[j].job, id)
      {
        assert s.lane.queue[j] in s.lane.queue && JobKnown(s, s.lane.queue[j].job);
      }
    }
    assert forall k :: 0 <= k < n ==> t.lane.queue[k] == s.lane.queue[k];
  }

  lemma PageTracked(s: State, input: Input)
    requires Inv(s) && Tracked(s) && Possible(s, Event.Page(input)) && Honest(s, Event.Page(input))
    ensures Tracked(Step(s, Event.Page(input)))
  {
    var p, f := s.page.value, Handle(s.page.value, input);
    InputSound(s, p, input);
    FailureStays(p, input);
    AbsorbAccounted(s, p, f);
    AbsorbWaiting(s, p, f);
  }

  /** Hearing of a report takes it out of the lane; only a report of failure takes an append with it. */
  lemma ReportTaken(s: State, k: nat)
    requires Accounted(s) && k < |s.lane.reports|
    ensures var left := s.lane.reports[..k] + s.lane.reports[k + 1..];
      && (forall r :: r in left ==> r in s.lane.reports)
      && (s.lane.reports[k].succeeded ==> Accounted(s.(lane := s.lane.(reports := left))))
  {
    var left := s.lane.reports[..k] + s.lane.reports[k + 1..];
    assert forall r :: r in s.lane.reports ==> r in left || r == s.lane.reports[k];
    assert s.lane.reports[k].succeeded ==> FailedAppends(s.lane.(reports := left)) == FailedAppends(s.lane);
  }

  lemma ReportedTracked(s: State, k: nat, reply: MissingReply)
    requires Inv(s) && Tracked(s) && Possible(s, JobReported(k, reply)) && Honest(s, JobReported(k, reply))
    ensures Tracked(Step(s, JobReported(k, reply)))
  {
    var p, report := s.page.value, s.lane.reports[k];
    ReportTaken(s, k);
    assert report in s.lane.reports;
    var t := s.(lane := s.lane.(reports := s.lane.reports[..k] + s.lane.reports[k + 1..]));
    DrainedKeepsInv(s, t.lane);
    assert ReportTrue(t, report);
    HeardTracked(t, p, report, reply);
  }

  lemma HeardTracked(t: State, p: Page, report: Report, reply: MissingReply)
    requires Inv(t) && Tailed(t) && Waiting(t) && (report.succeeded ==> Accounted(t)) && t.page == Some(p)
    requires ReportTrue(t, report)
    requires report.job.Retire? && report.job.fromServer ==> HonestReply(t, p.replica, report.job.version, reply)
    ensures Tracked(Absorb(t, JobDone(p, report.job, report.succeeded, reply)))
  {
    var f := JobDone(p, report.job, report.succeeded, reply);
    JobDoneSound(t, p, report, reply);
    FailureStaysAfter(p, report.job, report.succeeded, reply);
    AbsorbAccounted(t, p, f);
    AbsorbWaiting(t, p, f);
  }

  // ---------- Lane steps ----------

  /** The head leaves without having been written. */
  lemma LeaveTracked(s: State)
    requires Tracked(s) && s.lane.queue != []
    ensures Tracked(s.(lane := Leave(s.lane, false)))
  {
    var head, lane := s.lane.queue[0], Leave(s.lane, false);
    assert head in s.lane.queue;
    assert forall r :: r in s.lane.reports ==> r in lane.reports;
    assert forall x :: x in s.lane.queue ==> x == head || x in lane.queue;
    assert !head.expired ==> Report(head.job, false) in lane.reports;
    assert forall k :: 0 <= k < |lane.queue| ==> lane.queue[k] == s.lane.queue[k + 1];
  }

  lemma ExpiryTracked(s: State, k: nat)
    requires Tracked(s) && Possible(s, JobExpires(k))
    ensures Tracked(Step(s, JobExpires(k)))
  {
    var ticket, t := s.lane.queue[k], Step(s, JobExpires(k));
    assert Report(ticket.job, false) in t.lane.reports;
    assert forall r :: r in s.lane.reports ==> r in t.lane.reports;
    assert forall j :: 0 <= j < |s.lane.queue| ==> t.lane.queue[j].job == s.lane.queue[j].job;
    forall m | m in QueuedAppends(s.lane)
      ensures m in QueuedAppends(t.lane)
    {
      var x :| x in s.lane.queue && x.job.Append? && x.job.mutation == m;
      var j :| 0 <= j < |s.lane.queue| && s.lane.queue[j] == x;
      assert t.lane.queue[j] in t.lane.queue;
    }
    forall x | x in t.lane.queue && x.expired && x.job.Append?
      ensures x.job == ticket.job || x in s.lane.queue
    {
      var j :| 0 <= j < |t.lane.queue| && t.lane.queue[j] == x;
      assert j != k ==> s.lane.queue[j] == x;
    }
  }

  lemma WrittenIds(s: State, record: Record)
    requires Tailed(s) && Possible(s, JobWritten) && s.page.Some?
    requires Written(s.stored, s.lane.queue[0].job, s.lane.started.value) == Ok(record)
    ensures var job := s.lane.queue[0].job;
      forall m :: m in record.pending ==>
        m.id in s.journaled || m in job.fallback.pending || (job.Append? && m == job.mutation)
  {
  }

  lemma WriteAccounted(s: State, record: Record)
    requires Inv(s) && Accounted(s) && Possible(s, JobWritten) && s.page.Some?
    requires Written(s.stored, s.lane.queue[0].job, s.lane.started.value) == Ok(record)
    ensures Accounted(Step(s, JobWritten)) && Tailed(Step(s, JobWritten))
  {
    var head, t := s.lane.queue[0], Step(s, JobWritten);
    WriteKeeps(s, head.job, record);
    assert forall r :: r in s.lane.reports ==> r in t.lane.reports;
    assert forall x :: x in s.lane.queue ==> x == head || x in t.lane.queue;
  }

  lemma WriteWaiting(s: State, record: Record)
    requires Inv(s) && Tailed(s) && Waiting(s) && Possible(s, JobWritten) && s.page.Some?
    requires Written(s.stored, s.lane.queue[0].job, s.lane.started.value) == Ok(record)
    ensures Waiting(Step(s, JobWritten))
  {
    var head, t := s.lane.queue[0], Step(s, JobWritten);
    WrittenIds(s, record);
    forall k | 0 <= k < |t.lane.queue|
      ensures t.lane.queue[k] == s.lane.queue[k + 1]
      ensures t.lane.queue[k].job.Append? ==> t.lane.queue[k].job.mutation.id !in t.journaled
    {
      assert t.lane.queue[k].job.Append? ==> Unaware(head.job, t.lane.queue[k].job.mutation.id);
    }
  }

  lemma WriteTracked(s: State)
    requires Inv(s) && Tracked(s) && Possible(s, JobWritten)
    ensures Tracked(Step(s, JobWritten))
  {
    WriteKeepsInv(s);
    var record := Written(s.stored, s.lane.queue[0].job, s.lane.started.value).value;
    WriteAccounted(s, record);
    WriteWaiting(s, record);
  }

  lemma StepTracked(s: State, e: Event)
    requires Inv(s) && Tracked(s) && Possible(s, e) && Honest(s, e) && OpenSucceeds(e)
    ensures Tracked(Step(s, e))
  {
    match e
    case Page(input) => PageTracked(s, input);
    case JobSkipped => LeaveTracked(s);
    case JobBreaks => LeaveTracked(s);
    case JobWritten => WriteTracked(s);
    case JobExpires(k) => ExpiryTracked(s, k);
    case JobReported(k, reply) => ReportedTracked(s, k, reply);
    case _ =>
  }

  lemma {:induction false} RunTracked(s: State, events: seq<Event>)
    requires Inv(s) && Tracked(s) && Legal(s, events)
    ensures Tracked(After(s, events))
    decreases |events|
  {
    if events != [] {
      StepKeepsInv(s, events[0]);
      StepTracked(s, events[0]);
      RunTracked(Step(s, events[0]), events[1..]);
    }
  }

  // ---------- What each event hands to the socket ----------

  function Handed(s: State, e: Event): seq<Mutation>
    requires Possible(s, e)
  {
    match e
    case Page(input) => Handle(s.page.value, input).sends
    case JobReported(k, reply) =>
      JobDone(s.page.value, s.lane.reports[k].job, s.lane.reports[k].succeeded, reply).sends
    case _ => []
  }

  /** The two paths that hand over the retry list: synchronizing, and a tab snapshot on a synchronized page. */
  predicate HandsOverPending(s: State, e: Event)
    requires Possible(s, e)
  {
    && e.Page? && !Stopped(s.page.value) && s.page.value.socket.Open?
    && match e.input
       case Synced(_) => true
       case TabImport(ops, isUpdate, _, _) =>
         ops != {} && !isUpdate && s.page.value.serverVersion.Some? && s.page.value.serverSynced
       case _ => false
  }

  /** Everything else hands over nothing, but for the mutation of an append that has just been reported written. */
  lemma HandedIs(s: State, e: Event)
    requires Possible(s, e)
    ensures forall m :: m in Handed(s, e) ==>
      || (HandsOverPending(s, e) && m in s.page.value.pending)
      || (e.JobReported? && s.lane.reports[e.k].succeeded && s.lane.reports[e.k].job.Append?
          && m == s.lane.reports[e.k].job.mutation)
    ensures HandsOverPending(s, e) ==> Handed(s, e) == s.page.value.pending
  {
  }

  /** A mutation handed to the socket is in the stored retry list, or has been. */
  ghost predicate HandedDurably(s: State, e: Event)
    requires Possible(s, e)
  {
    forall m :: m in Handed(s, e) ==> m.id in s.journaled
  }

  ghost predicate NoneOf(pending: seq<Mutation>, appends: set<Mutation>)
  {
    forall m :: m in pending ==> m !in appends
  }

  /**
   * In every reachable state, whatever event comes: while no append of a pending mutation
   * has failed unheard, all that is handed to the socket is in the durable retry list
   * exactly when the event does not hand over the page's list, or the lane holds no append
   * of a mutation in it.
   */
  lemma HandedDurablyIff(access: bool, events: seq<Event>, e: Event)
    requires Legal(Initial(access), events) && Possible(After(Initial(access), events), e)
    requires var s := After(Initial(access), events);
      s.page.Some? ==> NoneOf(s.page.value.pending, FailedAppends(s.lane))
    ensures var s := After(Initial(access), events);
      HandedDurably(s, e) <==> !HandsOverPending(s, e) || NoneOf(s.page.value.pending, QueuedAppends(s.lane))
  {
    var s := After(Initial(access), events);
    RunKeepsInv(Initial(access), events);
    RunTracked(Initial(access), events);
    OtherwiseDurable(s, e);
    if HandsOverPending(s, e) {
      HandedIs(s, e);
      QueuedIsNotStored(s);
    }
  }

  /**
   * In every reachable state: when no append of a pending mutation is in the lane or has
   * failed unheard, or the event does not hand over the page's list, all that is handed
   * to the socket could be rebuilt by a restart.
   */
  lemma HandedIsRecoverable(access: bool, events: seq<Event>, e: Event)
    requires Legal(Initial(access), events) && Possible(After(Initial(access), events), e)
    requires var s := After(Initial(access), events);
      HandsOverPending(s, e) ==>
        NoneOf(s.page.value.pending, QueuedAppends(s.lane)) && NoneOf(s.page.value.pending, FailedAppends(s.lane))
    ensures var s := After(Initial(access), events);
      forall m :: m in Handed(s, e) ==> m.id in s.journaled && m.ops <= Holds(s.stored)
  {
    var s := After(Initial(access), events);
    RunKeepsInv(Initial(access), events);
    RunTracked(Initial(access), events);
    OtherwiseDurable(s, e);
    HandedIs(s, e);
    forall m | m in Handed(s, e)
      ensures m.id in s.journaled && m.ops <= Holds(s.stored)
    {
      assert m.id in s.journaled && Registered(s, m);
    }
  }

  lemma OtherwiseDurable(s: State, e: Event)
    requires Inv(s) && Possible(s, e)
    ensures !HandsOverPending(s, e) ==> HandedDurably(s, e)
    ensures forall m :: m in Handed(s, e) ==> Registered(s, m)
  {
    HandedIs(s, e);
    if e.JobReported? {
      assert s.lane.reports[e.k] in s.lane.reports;
      assert JobKnown(s, s.lane.reports[e.k].job);
    }
  }

  lemma QueuedIsNotStored(s: State)
    requires Tracked(s)
    ensures forall m :: m in QueuedAppends(s.lane) ==> m.id !in s.journaled
  {
    forall m | m in QueuedAppends(s.lane)
      ensures m.id !in s.journaled
    {
      var t :| t in s.lane.queue && t.job.Append? && t.job.mutation == m;
      var k :| 0 <= k < |s.lane.queue| && s.lane.queue[k] == t;
    }
  }
}
