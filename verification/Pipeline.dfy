/**
 * The durable mutation pipeline as a whole: one page, its journal lane, the stored
 * record, the network and the server, over every interleaving of their steps.
 *
 * The page's own steps are the handlers of EngineSession.dfy.  A journal job starts
 * by exporting the replica, is written later in one atomic step, and reports back
 * later still; it can fail, time out while detached, or be cut off by a crash.
 */
module Pipeline {
  import opened Wrappers
  import opened Journal
  import opened EngineSession

  // ---------- State ----------

  datatype Ticket = Ticket(job: Job, expired: bool)
  datatype Report = Report(job: Job, succeeded: bool)

  /** The document's FIFO journal lane: at most its head is at work, holding the snapshot it exported. */
  datatype Lane = Lane(queue: seq<Ticket>, started: Option<set<Op>>, poisoned: bool, reports: seq<Report>)

  /** The server commits each mutation id once and only grows. */
  datatype Server = Server(committed: set<Op>, receipts: map<nat, set<Op>>)

  /**
   * Beside the live parts the state remembers every mutation ever drawn (by id), the
   * ids that have been in the stored retry list, the ids drawn on the current page, and
   * every frame ever handed to the network, which may deliver it late, often or never.
   */
  datatype State = State(
    access: bool,
    page: Option<Page>,
    lane: Lane,
    stored: Option<Record>,
    server: Server,
    registry: map<nat, Mutation>,
    journaled: set<nat>,
    mine: set<nat>,
    sent: set<Mutation>)

  const EMPTY_LANE := Lane([], None, false, [])

  function Initial(access: bool): State
  {
    State(access, None, EMPTY_LANE, None, Server({}, map[]), map[], {}, {}, {})
  }

  // ---------- Events ----------

  datatype Input =
    | Edit(ops: set<Op>, id: nat)
    | TabImport(ops: set<Op>, isUpdate: bool, id: nat, reply: MissingReply)
    | RemoteImport(ops: set<Op>)
    | ServerVersion(version: set<Op>)
    | Synced(reply: MissingReply)
    | Committed(id: nat, version: set<Op>, revision: nat)
    | ConnectStarts | SocketDialed | SocketUp | SocketDown(code: nat) | NetworkLost | PageHidden
    | SaveDue | RoleChanged(role: nat) | Refused | EngineClosed

  datatype Event =
    | Page(input: Input)
    | JobStarts | JobSkipped | JobWritten | JobBreaks
    | JobExpires(k: nat)
    | JobReported(k: nat, reply: MissingReply)
    | Opened(applies: bool, role: nat)
    | Crashed
    | ServerCommits(mutation: Mutation)
    | PeerCommits(ops: set<Op>)

  function Handle(p: Page, input: Input): Effect
  {
    match input
    case Edit(ops, id) => LocalEdit(p, ops, id)
    case TabImport(ops, isUpdate, id, reply) => ImportFromTab(p, ops, isUpdate, id, reply)
    case RemoteImport(ops) => ImportRemote(p, ops)
    case ServerVersion(version) => OnServerVersion(p, version)
    case Synced(reply) => OnSynced(p, reply)
    case Committed(id, version, revision) => OnCommitted(p, id, version, revision)
    case ConnectStarts => BeginConnect(p)
    case SocketDialed => OpenSocket(p)
    case SocketUp => SocketOpened(p)
    case SocketDown(code) => OnDisconnect(p, code)
    case NetworkLost => GoOffline(p)
    case PageHidden => PageHide(p)
    case SaveDue => CheckpointJournal(p)
    case RoleChanged(role) => ChangeRole(p, role)
    case Refused => TerminalRecovery(p)
    case EngineClosed => Destroy(p)
  }

  // ---------- Steps ----------

  /** A request joins the lane, or fails at once when the lane is poisoned. */
  function EnqueueOne(lane: Lane, job: Job): Lane
  {
    if lane.poisoned then lane.(reports := lane.reports + [Report(job, false)])
    else lane.(queue := lane.queue + [Ticket(job, false)])
  }

  function Enqueue(lane: Lane, jobs: seq<Job>): Lane
    decreases |jobs|
  {
    if jobs == [] then lane else Enqueue(EnqueueOne(lane, jobs[0]), jobs[1..])
  }

  function Drawn(registry: map<nat, Mutation>, jobs: seq<Job>): map<nat, Mutation>
  {
    if jobs != [] && jobs[0].Append? then registry[jobs[0].mutation.id := jobs[0].mutation] else registry
  }

  function DrawnIds(jobs: seq<Job>): set<nat>
  {
    if jobs != [] && jobs[0].Append? then {jobs[0].mutation.id} else {}
  }

  /** The page did something: its requests join the lane and its frames go out. */
  function Absorb(s: State, f: Effect): State
  {
    s.(page := Some(f.page), lane := Enqueue(s.lane, f.jobs), registry := Drawn(s.registry, f.jobs),
       mine := s.mine + DrawnIds(f.jobs), sent := s.sent + set m | m in f.sends)
  }

  /** What a job makes of the stored record, given the snapshot it exported when it started. */
  function Written(stored: Option<Record>, job: Job, snapshot: set<Op>): Result<Record, JournalError>
  {
    var current := match stored case None => job.fallback case Some(record) => record;
    match job
    case Append(mutation, _) => AppendMutation(current, mutation)
    case Checkpoint(_) => Ok(Checkpointed(current, snapshot))
    case Retire(id, version, revision, _, _) => Ok(Acknowledged(current, id, snapshot, version, revision))
  }

  function IdsOf(pending: seq<Mutation>): set<nat> { set m | m in pending :: m.id }

  /** The head leaves the lane; its caller hears of it unless it has already timed out. */
  function Leave(lane: Lane, succeeded: bool): Lane
    requires lane.queue != []
  {
    var head := lane.queue[0];
    lane.(queue := lane.queue[1..], started := None,
          reports := if head.expired then lane.reports else lane.reports + [Report(head.job, succeeded)])
  }

  predicate Possible(s: State, e: Event)
  {
    match e
    case Page(input) =>
      && s.page.Some?
      && (input.ServerVersion? || input.Synced? || input.Committed? ==> s.page.value.socket.Open?)
    case JobStarts => s.page.Some? && s.lane.queue != [] && s.lane.started.None? && !s.lane.poisoned && !s.lane.queue[0].expired
    case JobSkipped => s.lane.queue != [] && s.lane.started.None? && (s.lane.poisoned || s.lane.queue[0].expired)
    case JobWritten => s.lane.queue != [] && s.lane.started.Some?
    case JobBreaks => s.lane.queue != [] && s.lane.started.Some?
    case JobExpires(k) => k < |s.lane.queue| && !s.lane.queue[k].expired
    case JobReported(k, _) => s.page.Some? && k < |s.lane.reports|
    case Opened(_, _) => s.page.None?
    case Crashed => s.page.Some?
    case ServerCommits(mutation) => mutation in s.sent
    case PeerCommits(_) => true
  }

  function Step(s: State, e: Event): State
    requires Possible(s, e)
  {
    match e
    case Page(input) => Absorb(s, Handle(s.page.value, input))
    case JobStarts => s.(lane := s.lane.(started := Some(s.page.value.replica)))
    case JobSkipped => s.(lane := Leave(s.lane, false))
    case JobBreaks => s.(lane := Leave(s.lane, false))
    case JobWritten =>
      var job := s.lane.queue[0].job;
      (match Written(s.stored, job, s.lane.started.value)
       case Err(_) => s.(lane := Leave(s.lane, false))
       case Ok(record) =>
         s.(stored := Some(record), lane := Leave(s.lane, true), journaled := s.journaled + IdsOf(record.pending)))
    case JobExpires(k) =>
      var ticket := s.lane.queue[k];
      s.(lane := s.lane.(queue := s.lane.queue[k := ticket.(expired := true)], poisoned := true,
                         reports := s.lane.reports + [Report(ticket.job, false)]))
    case JobReported(k, reply) =>
      var report := s.lane.reports[k];
      Absorb(s.(lane := s.lane.(reports := s.lane.reports[..k] + s.lane.reports[k + 1..])),
             JobDone(s.page.value, report.job, report.succeeded, reply))
    case Opened(applies, role) =>
      (match s.stored
       case None => s.(page := Some(Blank(s.access, role)))
       case Some(record) =>
         if applies then s.(page := Some(Restored(s.access, record)))
         else Absorb(s, FailedOpen(s.access, record)))
    case Crashed => s.(page := None, lane := EMPTY_LANE, mine := {})
    case ServerCommits(mutation) =>
      if mutation.id in s.server.receipts then s
      else s.(server := Server(s.server.committed + mutation.ops, s.server.receipts[mutation.id := mutation.ops]))
    case PeerCommits(ops) => s.(server := s.server.(committed := s.server.committed + ops))
  }

  // ---------- What is assumed of the surroundings ----------

  /** The replica can always export what the server lacks, no less and nothing it does not have. */
  ghost predicate HonestReply(s: State, replica: set<Op>, version: set<Op>, reply: MissingReply)
  {
    && reply.succeeds && reply.id !in s.registry
    && replica - version <= reply.payload <= replica
  }

  /**
   * Random ids are new; the server reports only committed operations and ids, and sends
   * its version before it says a socket is synchronized; exports succeed.
   */
  ghost predicate Honest(s: State, e: Event)
    requires Possible(s, e)
  {
    match e
    case Page(input) =>
      var p := s.page.value;
      (match input
       case Edit(_, id) => id !in s.registry
       case TabImport(ops, _, id, reply) =>
         && id !in s.registry
         && (p.serverVersion.Some? ==> HonestReply(s, p.replica + ops, p.serverVersion.value, reply))
       case RemoteImport(ops) => ops <= s.server.committed
       case ServerVersion(version) => version <= s.server.committed
       case Synced(reply) => p.serverVersion.Some? && HonestReply(s, p.replica, p.serverVersion.value, reply)
       case Committed(id, version, _) => id in s.server.receipts && version <= s.server.committed
       case _ => true)
    case JobReported(k, reply) =>
      var job := s.lane.reports[k].job;
      job.Retire? && job.fromServer ==> HonestReply(s, s.page.value.replica, job.version, reply)
    case _ => true
  }

  /** Opening a stored journal succeeded. */
  predicate OpenSucceeds(e: Event) { e.Opened? ==> e.applies }

  // ---------- Runs ----------

  ghost predicate Legal(s: State, events: seq<Event>)
    decreases |events|
  {
    events == [] ||
    (Possible(s, events[0]) && Honest(s, events[0]) && OpenSucceeds(events[0]) && Legal(Step(s, events[0]), events[1..]))
  }

  /** The state a legal run ends in. */
  function After(s: State, events: seq<Event>): State
    decreases |events|
  {
    if events == [] || !Possible(s, events[0]) then s else After(Step(s, events[0]), events[1..])
  }
}
