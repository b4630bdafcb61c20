/**
 * What the mutation pipeline guarantees in every legal run: nothing written is lost,
 * nothing journaled is forgotten before the server commits it, ids are never rebound,
 * and a page that reports itself durable really is.
 */
module Durability {
  import opened Wrappers
  import opened Journal
  import opened EngineSession
  import opened Pipeline

  // ---------- The invariant, in parts ----------

  ghost predicate Registered(s: State, m: Mutation)
  {
    m.id in s.registry && s.registry[m.id] == m
  }

  ghost predicate JobKnown(s: State, job: Job)
  {
    && job.fallback.snapshot == {}
    && (forall m :: m in job.fallback.pending ==> Registered(s, m))
    && (job.Append? ==> Registered(s, job.mutation))
    && (job.Retire? ==>
          && job.id in s.registry
          && (if job.fromServer then job.id in s.server.receipts && job.version <= s.server.committed else !s.access))
  }

  /** Ids are never rebound: everything on the page, in the journal, queued or sent agrees on what an id means. */
  ghost predicate Consistent(s: State)
  {
    && (forall id :: id in s.registry ==> s.registry[id].id == id && s.registry[id].ops != {})
    && (s.page.Some? ==> forall m :: m in s.page.value.pending ==> Registered(s, m))
    && (s.stored.Some? ==> forall m :: m in s.stored.value.pending ==> Registered(s, m))
    && (forall m :: m in s.sent ==> Registered(s, m))
    && (forall t :: t in s.lane.queue ==> JobKnown(s, t.job))
    && (forall r :: r in s.lane.reports ==> JobKnown(s, r.job))
    && (forall id :: id in s.server.receipts ==>
          id in s.registry && s.server.receipts[id] == s.registry[id].ops && s.server.receipts[id] <= s.server.committed)
    && (forall id :: id in s.journaled + s.mine ==> id in s.registry)
    && (s.page.Some? ==> s.page.value.access == s.access)
    && (s.page.None? ==> s.lane == EMPTY_LANE && s.mine == {})
    && (s.lane.started.Some? ==> s.lane.queue != [])
  }

  ghost predicate JobCovered(job: Job, replica: set<Op>)
  {
    && (forall m :: m in job.fallback.pending ==> m.ops <= replica)
    && (job.Append? ==> job.mutation.ops <= replica)
  }

  /** The live replica, and every snapshot exported from it, cover what a restart could rebuild. */
  ghost predicate Covered(s: State)
  {
    s.page.Some? ==>
      var replica := s.page.value.replica;
      && Holds(s.stored) <= replica
      && (forall m :: m in s.page.value.pending ==> m.ops <= replica)
      && (forall t :: t in s.lane.queue ==> JobCovered(t.job, replica))
      && (forall id :: id in s.mine && id in s.registry ==> s.registry[id].ops <= replica)
      && (s.lane.started.Some? ==> Holds(s.stored) <= s.lane.started.value <= replica)
  }

  /** What was once written to the journal stays recoverable, and stays pending until the server has it. */
  ghost predicate Kept(s: State)
  {
    && (forall id :: id in s.journaled && id in s.registry ==> s.registry[id].ops <= Holds(s.stored))
    && (forall r :: r in s.lane.reports && r.succeeded && r.job.Append? ==> r.job.mutation.id in s.journaled)
    && (s.access ==> forall id :: id in s.journaled && id !in s.server.receipts ==>
          s.stored.Some? && s.registry.Keys >= {id} && s.registry[id] in s.stored.value.pending)
  }

  /** Every edit drawn on this page is still pending here or already recoverable. */
  ghost predicate Mine(s: State)
  {
    s.page.Some? ==>
      && (forall id :: id in s.mine && id in s.registry ==>
            s.registry[id] in s.page.value.pending || s.registry[id].ops <= Holds(s.stored))
      && (forall r :: r in s.lane.reports && r.succeeded && r.job.Retire? && r.job.id in s.mine && r.job.id in s.registry ==>
            s.registry[r.job.id].ops <= Holds(s.stored))
      && (s.lane.started.Some? && s.lane.queue != [] ==>
            var job := s.lane.queue[0].job;
            job.Retire? && job.id in s.mine && job.id in s.registry ==> s.registry[job.id].ops <= s.lane.started.value)
  }

  /** A synchronized, connected service page holds nothing the server lacks. */
  ghost predicate Truthful(p: Page, committed: set<Op>)
  {
    && (p.serverVersion.Some? ==> p.serverVersion.value <= committed)
    && (p.access && !Stopped(p) && p.serverSynced ==>
          && p.serverVersion.Some?
          && (p.status == Connected ==> p.pending == [] && p.replica <= committed))
  }

  ghost predicate Inv(s: State)
  {
    && Consistent(s) && Covered(s) && Kept(s) && Mine(s)
    && (s.page.Some? ==> Truthful(s.page.value, s.server.committed))
  }

  // ---------- Page handlers ----------

  /** What every handler does, seen from outside. */
  ghost predicate Sound(s: State, p: Page, f: Effect)
  {
    && f.page.access == p.access && p.replica <= f.page.replica
    && |f.jobs| <= 1
    && (forall m :: m in f.page.pending ==> m in p.pending || (f.jobs != [] && f.jobs[0].Append? && f.jobs[0].mutation == m))
    && (forall m :: m in f.sends ==> m in p.pending || Registered(s, m))
    && (f.jobs != [] ==>
          var job := f.jobs[0];
          && job.fallback.snapshot == {} && job.fallback.pending == f.page.pending
          && (job.Append? ==>
                && job.mutation in f.page.pending && job.mutation.id !in s.registry
                && job.mutation.ops != {} && job.mutation.ops <= f.page.replica)
          && (job.Retire? ==>
                && job.id in s.registry
                && (if job.fromServer then job.id in s.server.receipts && job.version <= s.server.committed else !s.access)))
    && Truthful(f.page, s.server.committed)
  }

  /**
   * A mutation leaves the page's retry list only once the server has it (or there is no
   * server), and an edit drawn on this page only once it is recoverable.
   */
  ghost predicate Retains(s: State, p: Page, f: Effect)
  {
    forall m :: m in p.pending && m !in f.page.pending ==>
      && (s.access ==> m.id in s.server.receipts)
      && (m.id in s.mine ==> m.ops <= Holds(s.stored))
  }

  ghost predicate Fine(s: State, p: Page, f: Effect)
  {
    Sound(s, p, f) && Retains(s, p, f)
  }

  lemma SendMissingSound(s: State, p: Page, version: set<Op>, reply: MissingReply)
    requires HonestReply(s, p.replica, version, reply) && version <= s.server.committed
    requires p.serverVersion.Some? ==> p.serverVersion.value <= s.server.committed
    requires p.access && p.serverSynced && !Stopped(p) ==> p.serverVersion.Some?
    requires Stopped(p) || p.pending != [] ==> Truthful(p, s.server.committed)
    ensures Fine(s, p, SendMissingSince(p, version, reply))
  {
    if !Stopped(p) && p.pending == [] && p.replica != version {
      assert forall x :: x in p.replica && x !in version ==> x in p.replica - version;
      if reply.payload == {} {
        assert p.replica <= version;
      }
    }
  }

  lemma EditSound(s: State, p: Page, ops: set<Op>, id: nat)
    requires Truthful(p, s.server.committed) && id !in s.registry
    ensures Fine(s, p, LocalEdit(p, ops, id))
  {
  }

  lemma TabImportSound(s: State, p: Page, ops: set<Op>, isUpdate: bool, id: nat, reply: MissingReply)
    requires Truthful(p, s.server.committed) && id !in s.registry
    requires p.serverVersion.Some? ==> HonestReply(s, p.replica + ops, p.serverVersion.value, reply)
    ensures Fine(s, p, ImportFromTab(p, ops, isUpdate, id, reply))
  {
    if !Stopped(p) && ops != {} {
      var imported := p.(replica := p.replica + ops);
      if !isUpdate && p.serverVersion.Some? {
        SendMissingSound(s, imported, p.serverVersion.value, reply);
      }
    }
  }

  lemma SyncedSound(s: State, p: Page, reply: MissingReply)
    requires Truthful(p, s.server.committed)
    requires p.serverVersion.Some? && HonestReply(s, p.replica, p.serverVersion.value, reply)
    ensures Fine(s, p, OnSynced(p, reply))
  {
    if !Stopped(p) && p.pending == [] {
      SendMissingSound(s, p.(serverSynced := true), p.serverVersion.value, reply);
    }
  }

  lemma FrameSound(s: State, p: Page, input: Input)
    requires input.RemoteImport? || input.ServerVersion? || input.Committed?
    requires s.page == Some(p) && Truthful(p, s.server.committed) && Consistent(s)
    requires Possible(s, Event.Page(input)) && Honest(s, Event.Page(input))
    ensures Fine(s, p, Handle(p, input))
  {
  }

  lemma ConnectionSound(s: State, p: Page, input: Input)
    requires input.ConnectStarts? || input.SocketDialed? || input.SocketUp? || input.NetworkLost?
    requires Truthful(p, s.server.committed)
    ensures Fine(s, p, Handle(p, input))
  {
  }

  lemma ClosingSound(s: State, p: Page, input: Input)
    requires input.PageHidden? || input.SaveDue? || input.RoleChanged? || input.Refused? || input.EngineClosed?
    requires Truthful(p, s.server.committed)
    ensures Fine(s, p, Handle(p, input))
  {
  }

  lemma SocketDownSound(s: State, p: Page, code: nat)
    requires Truthful(p, s.server.committed)
    ensures Fine(s, p, OnDisconnect(p, code))
  {
    if !p.socket.Closed? && !Stopped(p) {
      var down := p.(socket := Closed, serverSynced := false);
      if IsTerminal(code) {
        ClosingSound(s, down, Refused);
      } else if code == CLOSE_AUTHORITY_CHANGED {
        var offline := SetStatus(down, Offline);
        ClosingSound(s, offline, RoleChanged(NO_ROLE));
        ConnectionSound(s, ChangeRole(offline, NO_ROLE).page, ConnectStarts);
      }
    }
  }

  lemma InputSound(s: State, p: Page, input: Input)
    requires Consistent(s) && s.page == Some(p) && Truthful(p, s.server.committed)
    requires Possible(s, Event.Page(input)) && Honest(s, Event.Page(input))
    ensures Fine(s, p, Handle(p, input))
  {
    match input
    case Edit(ops, id) => EditSound(s, p, ops, id);
    case TabImport(ops, isUpdate, id, reply) => TabImportSound(s, p, ops, isUpdate, id, reply);
    case Synced(reply) => SyncedSound(s, p, reply);
    case RemoteImport(_) => FrameSound(s, p, input);
    case ServerVersion(_) => FrameSound(s, p, input);
    case Committed(_, _, _) => FrameSound(s, p, input);
    case ConnectStarts => ConnectionSound(s, p, input);
    case SocketDialed => ConnectionSound(s, p, input);
    case SocketUp => ConnectionSound(s, p, input);
    case NetworkLost => ConnectionSound(s, p, input);
    case SocketDown(code) => SocketDownSound(s, p, code);
    case _ => ClosingSound(s, p, input);
  }

  /** A report of a finished retirement means the retired edit is recoverable. */
  ghost predicate ReportTrue(s: State, report: Report)
  {
    && JobKnown(s, report.job)
    && (report.succeeded && report.job.Retire? && report.job.id in s.mine ==>
          report.job.id in s.registry && s.registry[report.job.id].ops <= Holds(s.stored))
  }

  lemma RetireDoneSound(s: State, p: Page, job: Job, reply: MissingReply)
    requires job.Retire? && ReportTrue(s, Report(job, true)) && p.access == s.access
    requires forall m :: m in p.pending ==> Registered(s, m)
    requires Truthful(p, s.server.committed)
    requires job.fromServer ==> HonestReply(s, p.replica, job.version, reply)
    ensures Fine(s, p, RetireDone(p, job.id, job.version, job.fromServer, reply))
  {
    var retired := p.(pending := Without(p.pending, job.id), localSaved := true);
    if job.fromServer && !Stopped(p) && retired.pending == [] {
      SendMissingSound(s, retired, job.version, reply);
    }
  }

  lemma JobDoneSound(s: State, p: Page, report: Report, reply: MissingReply)
    requires ReportTrue(s, report) && p.access == s.access
    requires forall m :: m in p.pending ==> Registered(s, m)
    requires Truthful(p, s.server.committed)
    requires report.job.Retire? && report.job.fromServer ==> HonestReply(s, p.replica, report.job.version, reply)
    ensures Fine(s, p, JobDone(p, report.job, report.succeeded, reply))
  {
    if report.succeeded && report.job.Retire? {
      RetireDoneSound(s, p, report.job, reply);
    }
  }

  // ---------- Absorbing a handler's effect ----------

  lemma EnqueueAtMostOne(lane: Lane, jobs: seq<Job>)
    requires |jobs| <= 1
    ensures Enqueue(lane, jobs) == if jobs == [] then lane else EnqueueOne(lane, jobs[0])
  {
    if jobs != [] {
      assert Enqueue(EnqueueOne(lane, jobs[0]), jobs[1..]) == EnqueueOne(lane, jobs[0]);
    }
  }

  lemma AbsorbConsistent(s: State, p: Page, f: Effect)
    requires Consistent(s) && s.page == Some(p) && Sound(s, p, f)
    ensures Consistent(Absorb(s, f))
  {
    EnqueueAtMostOne(s.lane, f.jobs);
    var t := Absorb(s, f);
    assert forall m :: Registered(s, m) ==> Registered(t, m);
    assert forall job :: JobKnown(s, job) ==> JobKnown(t, job);
    if f.jobs != [] {
      assert JobKnown(t, f.jobs[0]);
    }
  }

  lemma AbsorbCovered(s: State, p: Page, f: Effect)
    requires Consistent(s) && Covered(s) && s.page == Some(p) && Sound(s, p, f)
    ensures Covered(Absorb(s, f))
  {
    EnqueueAtMostOne(s.lane, f.jobs);
    assert forall job :: JobCovered(job, p.replica) ==> JobCovered(job, f.page.replica);
    if f.jobs != [] {
      assert JobCovered(f.jobs[0], f.page.replica);
    }
  }

  lemma AbsorbKept(s: State, p: Page, f: Effect)
    requires Consistent(s) && Kept(s) && s.page == Some(p) && Sound(s, p, f)
    ensures Kept(Absorb(s, f))
  {
    EnqueueAtMostOne(s.lane, f.jobs);
  }

  lemma AbsorbMine(s: State, p: Page, f: Effect)
    requires Consistent(s) && Mine(s) && s.page == Some(p) && Fine(s, p, f)
    ensures Mine(Absorb(s, f))
  {
    EnqueueAtMostOne(s.lane, f.jobs);
  }

  lemma AbsorbKeepsInv(s: State, p: Page, f: Effect)
    requires Inv(s) && s.page == Some(p) && Fine(s, p, f)
    ensures Inv(Absorb(s, f))
  {
    AbsorbConsistent(s, p, f);
    AbsorbCovered(s, p, f);
    AbsorbKept(s, p, f);
    AbsorbMine(s, p, f);
  }

  // ---------- The lane's own steps ----------

  /** The lane after some requests moved on: no new job, and no new report of success. */
  ghost predicate Drained(before: Lane, lane: Lane)
  {
    && (forall x :: x in lane.queue ==> exists y :: y in before.queue && y.job == x.job)
    && (forall r :: r in lane.reports ==>
          r in before.reports || (!r.succeeded && exists y :: y in before.queue && y.job == r.job))
    && (lane.started.Some? ==>
          && lane.started == before.started && before.queue != [] && lane.queue != []
          && lane.queue[0].job == before.queue[0].job)
  }

  lemma DrainedKeepsInv(s: State, lane: Lane)
    requires Inv(s) && s.page.Some? && Drained(s.lane, lane)
    ensures Inv(s.(lane := lane))
  {
  }

  lemma LeaveKeepsInv(s: State)
    requires Inv(s) && s.lane.queue != []
    ensures Inv(s.(lane := Leave(s.lane, false)))
  {
    assert s.lane.queue[0] in s.lane.queue;
    DrainedKeepsInv(s, Leave(s.lane, false));
  }

  lemma StartKeepsInv(s: State)
    requires Inv(s) && Possible(s, JobStarts)
    ensures Inv(Step(s, JobStarts))
  {
  }

  lemma ExpiryKeepsInv(s: State, k: nat)
    requires Inv(s) && Possible(s, JobExpires(k))
    ensures Inv(Step(s, JobExpires(k)))
  {
    var lane := Step(s, JobExpires(k)).lane;
    assert s.lane.queue[k] in s.lane.queue;
    forall x | x in lane.queue
      ensures exists y :: y in s.lane.queue && y.job == x.job
    {
      var i :| 0 <= i < |lane.queue| && lane.queue[i] == x;
      assert s.lane.queue[i] in s.lane.queue && s.lane.queue[i].job == x.job;
    }
    DrainedKeepsInv(s, lane);
  }

  // ---------- Journal writes ----------

  /** The record a write starts from: what is stored, or the fallback captured when the request was made. */
  function Base(stored: Option<Record>, job: Job): Record
  {
    match stored case None => job.fallback case Some(record) => record
  }

  lemma BaseKnown(s: State, t: Ticket)
    requires Inv(s) && s.page.Some? && t in s.lane.queue
    ensures forall m :: m in Base(s.stored, t.job).pending ==> Registered(s, m)
    ensures Holds(s.stored) <= Recoverable(Base(s.stored, t.job)) <= s.page.value.replica
  {
    assert JobKnown(s, t.job) && JobCovered(t.job, s.page.value.replica);
    if s.stored.None? {
      OpsWithin(t.job.fallback.pending, s.page.value.replica);
    }
  }

  /** Ids are never rebound, so the journal never refuses an append as a reused id. */
  lemma AppendNeverRefused(s: State, t: Ticket)
    requires Inv(s) && s.page.Some? && t in s.lane.queue && t.job.Append?
    ensures Written(s.stored, t.job, {}).Ok?
    ensures t.job.mutation in Written(s.stored, t.job, {}).value.pending
  {
    BaseKnown(s, t);
    assert Registered(s, t.job.mutation);
  }

  /** What any write leaves: nothing recoverable is lost, and it stays within the live replica. */
  lemma WriteKeeps(s: State, job: Job, record: Record)
    requires Inv(s) && Possible(s, JobWritten) && s.page.Some? && job == s.lane.queue[0].job
    requires Written(s.stored, job, s.lane.started.value) == Ok(record)
    ensures Holds(s.stored) <= Recoverable(record) <= s.page.value.replica
    ensures forall m :: m in record.pending ==> Registered(s, m)
    ensures job.Append? ==> job.mutation in record.pending && job.mutation.ops <= Recoverable(record)
    ensures !job.Append? ==> record.snapshot == s.lane.started.value && Holds(s.stored) <= record.snapshot
    ensures forall m :: m in Base(s.stored, job).pending && m !in record.pending ==> job.Retire? && job.id == m.id
  {
    var ticket := s.lane.queue[0];
    assert ticket in s.lane.queue && JobCovered(job, s.page.value.replica) && JobKnown(s, job);
    BaseKnown(s, ticket);
    var base := Base(s.stored, job);
    if job.Append? {
      AppendNeverRefused(s, ticket);
      AppendKeeps(base, job.mutation);
      OpsWithin(record.pending, s.page.value.replica);
    } else {
      assert forall m :: m in base.pending ==> m.ops <= OpsOf(base.pending);
      OpsWithin(record.pending, s.page.value.replica);
    }
  }

  lemma StoreConsistent(s: State, record: Record, lane: Lane, journaled: set<nat>)
    requires Consistent(s) && s.page.Some?
    requires forall m :: m in record.pending ==> Registered(s, m)
    requires forall x :: x in lane.queue ==> JobKnown(s, x.job)
    requires forall r :: r in lane.reports ==> JobKnown(s, r.job)
    requires lane.started.None? && forall id :: id in journaled ==> id in s.registry
    ensures Consistent(s.(stored := Some(record), lane := lane, journaled := journaled))
  {
  }

  lemma WriteConsistent(s: State, record: Record)
    requires Consistent(s) && Possible(s, JobWritten) && s.page.Some?
    requires Written(s.stored, s.lane.queue[0].job, s.lane.started.value) == Ok(record)
    requires forall m :: m in record.pending ==> Registered(s, m)
    ensures Consistent(Step(s, JobWritten))
  {
    var t := Step(s, JobWritten);
    assert s.lane.queue[0] in s.lane.queue;
    assert forall x :: x in t.lane.queue ==> x in s.lane.queue;
    assert forall r :: r in t.lane.reports ==> r in s.lane.reports || r.job == s.lane.queue[0].job;
    StoreConsistent(s, record, t.lane, t.journaled);
  }

  lemma WriteCovered(s: State, record: Record)
    requires Inv(s) && Possible(s, JobWritten) && s.page.Some?
    requires Written(s.stored, s.lane.queue[0].job, s.lane.started.value) == Ok(record)
    ensures Covered(Step(s, JobWritten))
  {
    WriteKeeps(s, s.lane.queue[0].job, record);
    assert forall x :: x in Step(s, JobWritten).lane.queue ==> x in s.lane.queue;
  }

  lemma WriteKept(s: State, record: Record)
    requires Inv(s) && Possible(s, JobWritten) && s.page.Some?
    requires Written(s.stored, s.lane.queue[0].job, s.lane.started.value) == Ok(record)
    ensures Kept(Step(s, JobWritten))
  {
    var job := s.lane.queue[0].job;
    WriteKeeps(s, job, record);
    var t := Step(s, JobWritten);
    assert s.lane.queue[0] in s.lane.queue && JobKnown(s, job);
    assert forall r :: r in t.lane.reports ==> r in s.lane.reports || r.job == job;
  }

  lemma WriteMine(s: State, record: Record)
    requires Inv(s) && Possible(s, JobWritten) && s.page.Some?
    requires Written(s.stored, s.lane.queue[0].job, s.lane.started.value) == Ok(record)
    ensures Mine(Step(s, JobWritten))
  {
    var job := s.lane.queue[0].job;
    WriteKeeps(s, job, record);
    assert forall r :: r in Step(s, JobWritten).lane.reports ==> r in s.lane.reports || r.job == job;
  }

  lemma WriteKeepsInv(s: State)
    requires Inv(s) && Possible(s, JobWritten)
    ensures Inv(Step(s, JobWritten))
    ensures Written(s.stored, s.lane.queue[0].job, s.lane.started.value).Ok?
  {
    var ticket := s.lane.queue[0];
    assert ticket in s.lane.queue;
    if ticket.job.Append? {
      AppendNeverRefused(s, ticket);
    }
    var record := Written(s.stored, ticket.job, s.lane.started.value).value;
    WriteKeeps(s, ticket.job, record);
    WriteConsistent(s, record);
    WriteCovered(s, record);
    WriteKept(s, record);
    WriteMine(s, record);
  }

  // ---------- Opening, and the world outside ----------

  lemma OpenKeepsInv(s: State, role: nat)
    requires Inv(s) && Possible(s, Opened(true, role))
    ensures Inv(Step(s, Opened(true, role)))
  {
  }

  lemma CrashKeepsInv(s: State)
    requires Inv(s) && Possible(s, Crashed)
    ensures Inv(Step(s, Crashed))
  {
  }

  lemma ServerGrows(s: State, server: Server)
    requires Inv(s) && s.server.committed <= server.committed && s.server.receipts.Keys <= server.receipts.Keys
    requires forall id :: id in server.receipts ==>
      id in s.registry && server.receipts[id] == s.registry[id].ops && server.receipts[id] <= server.committed
    ensures Inv(s.(server := server))
  {
    assert forall job :: JobKnown(s, job) ==> JobKnown(s.(server := server), job);
  }

  lemma ServerKeepsInv(s: State, e: Event)
    requires e.ServerCommits? || e.PeerCommits?
    requires Inv(s) && Possible(s, e)
    ensures Inv(Step(s, e))
  {
    if e.ServerCommits? {
      assert Registered(s, e.mutation);
    }
    ServerGrows(s, Step(s, e).server);
  }

  lemma ReportedKeepsInv(s: State, k: nat, reply: MissingReply)
    requires Inv(s) && Possible(s, JobReported(k, reply)) && Honest(s, JobReported(k, reply))
    ensures Inv(Step(s, JobReported(k, reply)))
  {
    var p, report := s.page.value, s.lane.reports[k];
    var left := s.lane.reports[..k] + s.lane.reports[k + 1..];
    assert forall r :: r in left ==> r in s.lane.reports;
    assert report in s.lane.reports;
    var t := s.(lane := s.lane.(reports := left));
    DrainedKeepsInv(s, t.lane);
    assert ReportTrue(t, report);
    JobDoneSound(t, p, report, reply);
    AbsorbKeepsInv(t, p, JobDone(p, report.job, report.succeeded, reply));
  }

  lemma StepKeepsInv(s: State, e: Event)
    requires Inv(s) && Possible(s, e) && Honest(s, e) && OpenSucceeds(e)
    ensures Inv(Step(s, e))
  {
    match e
    case Page(input) =>
      InputSound(s, s.page.value, input);
      AbsorbKeepsInv(s, s.page.value, Handle(s.page.value, input));
    case JobStarts => StartKeepsInv(s);
    case JobSkipped => LeaveKeepsInv(s);
    case JobBreaks => LeaveKeepsInv(s);
    case JobWritten => WriteKeepsInv(s);
    case JobExpires(k) => ExpiryKeepsInv(s, k);
    case JobReported(k, reply) => ReportedKeepsInv(s, k, reply);
    case Opened(_, role) => OpenKeepsInv(s, role);
    case Crashed => CrashKeepsInv(s);
    case ServerCommits(_) => ServerKeepsInv(s, e);
    case PeerCommits(_) => ServerKeepsInv(s, e);
  }
}
