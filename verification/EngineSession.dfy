/**
 * One open page of the collaboration engine: the durability-related handlers of
 * client/src/collab/esbt-engine.ts.
 *
 * Each handler is given twice: as a function from page to page together with the
 * journal jobs it requests and the mutations it hands to the socket, and as a method
 * of the class that updates the source's fields in place and is proved to do exactly
 * that.  Pipeline.dfy proves what the handlers guarantee over whole runs.
 */
module EngineSession {
  import opened Wrappers
  import opened Journal

  datatype Status = Connecting | Saving | Connected | Offline
  datatype Socket = Closed | Dialing | Open

  datatype Page = Page(
    access: bool,
    replica: set<Op>,
    pending: seq<Mutation>,
    socket: Socket,
    serverSynced: bool,
    status: Status,
    serverVersion: Option<set<Op>>,
    acked: Option<set<Op>>,
    revision: nat,
    role: nat,
    prunedAt: nat,
    localSaved: bool,
    storageFatal: bool,
    destroyed: bool)

  /** A request to the journal lane, with the fallback record captured when it is made. */
  datatype Job =
    | Append(mutation: Mutation, fallback: Record)
    | Checkpoint(fallback: Record)
    | Retire(id: nat, version: set<Op>, revision: nat, fromServer: bool, fallback: Record)

  datatype Effect = Effect(page: Page, jobs: seq<Job>, sends: seq<Mutation>)

  /** What the replica answers when asked for the operations a peer lacks, and the id drawn for them. */
  datatype MissingReply = MissingReply(succeeds: bool, payload: set<Op>, kind: MutationKind, id: nat)

  /** The role with no rights at all: the source's null. */
  const NO_ROLE := 0

  function Quiet(p: Page): Effect { Effect(p, [], []) }

  function EmptyRecord(p: Page): Record
  {
    Record(p.role, {}, p.pending, p.acked, p.revision, p.prunedAt)
  }

  function SetStatus(p: Page, status: Status): Page
  {
    if p.storageFatal then p.(status := Offline)
    else if !p.access then p.(status := Connected)
    else p.(status := status)
  }

  predicate Stopped(p: Page) { p.destroyed || p.storageFatal }

  // ---------- Outgoing work ----------

  function PersistAndSend(p: Page, ops: set<Op>, kind: MutationKind, id: nat): Effect
  {
    if Stopped(p) || ops == {} then Quiet(p)
    else
      var mutation := Mutation(id, kind, ops);
      var noted := p.(pending := p.pending + [mutation]);
      var marked := if p.access && p.serverSynced then SetStatus(noted, Saving) else noted;
      Effect(marked, [Append(mutation, EmptyRecord(marked))], [])
  }

  function SendPending(p: Page): seq<Mutation>
  {
    if !Stopped(p) && p.socket.Open? && p.serverSynced then p.pending else []
  }

  function SendMissingSince(p: Page, version: set<Op>, reply: MissingReply): Effect
  {
    if Stopped(p) then Quiet(p)
    else if p.pending != [] then Effect(p, [], SendPending(p))
    else if p.replica == version then Quiet(if p.serverSynced then SetStatus(p, Connected) else p)
    else if !reply.succeeds then Quiet(p)
    else if reply.payload == {} then Quiet(if p.serverSynced then SetStatus(p, Connected) else p)
    else PersistAndSend(p, reply.payload, reply.kind, reply.id)
  }

  function Synchronize(p: Page, reply: MissingReply): Effect
  {
    if !p.serverSynced || Stopped(p) then Quiet(p)
    else if p.pending != [] then Effect(SetStatus(p, Saving), [], SendPending(SetStatus(p, Saving)))
    else if p.serverVersion.Some? then SendMissingSince(p, p.serverVersion.value, reply)
    else Quiet(SetStatus(p, Connected))
  }

  function CheckpointJournal(p: Page): Effect
  {
    if p.storageFatal then Quiet(p) else Effect(p, [Checkpoint(EmptyRecord(p))], [])
  }

  // ---------- Edits and imports ----------

  /** A transaction on the editor's replica: the local-update callback persists what it produced. */
  function LocalEdit(p: Page, ops: set<Op>, id: nat): Effect
  {
    PersistAndSend(p.(replica := p.replica + ops, localSaved := false), ops, Update, id)
  }

  function ImportFromTab(p: Page, ops: set<Op>, isUpdate: bool, id: nat, reply: MissingReply): Effect
  {
    if Stopped(p) || ops == {} then Quiet(p)
    else
      var imported := p.(replica := p.replica + ops);
      if isUpdate then PersistAndSend(imported, ops, Update, id)
      else if p.serverVersion.Some? then SendMissingSince(imported, p.serverVersion.value, reply)
      else Quiet(imported)
  }

  function ImportRemote(p: Page, ops: set<Op>): Effect
  {
    if Stopped(p) then Quiet(p) else Quiet(p.(replica := p.replica + ops))
  }

  // ---------- Frames from the server ----------

  function OnServerVersion(p: Page, version: set<Op>): Effect
  {
    if Stopped(p) then Quiet(p) else Quiet(p.(serverVersion := Some(version)))
  }

  function OnSynced(p: Page, reply: MissingReply): Effect
  {
    if Stopped(p) then Quiet(p) else Synchronize(p.(serverSynced := true), reply)
  }

  datatype Receipt = Receipt(id: nat, version: set<Op>, revision: nat)

  function OnCommitted(p: Page, id: nat, version: set<Op>, revision: nat): Effect
  {
    if Stopped(p) then Quiet(p)
    else
      var noted := p.(acked := Some(version), serverVersion := Some(version),
                      revision := if revision > p.revision then revision else p.revision);
      Effect(noted, [Retire(id, version, revision, true, EmptyRecord(noted))], [])
  }

  // ---------- The connection ----------

  function BeginConnect(p: Page): Effect
  {
    if !p.access || Stopped(p) || !p.socket.Closed? then Quiet(p) else Quiet(SetStatus(p, Connecting))
  }

  function OpenSocket(p: Page): Effect
  {
    if Stopped(p) then Quiet(p) else Quiet(p.(socket := Dialing, serverSynced := false))
  }

  function SocketOpened(p: Page): Effect
  {
    if p.socket.Dialing? then Quiet(p.(socket := Open)) else Quiet(p)
  }

  const CLOSE_INVALID_PAYLOAD := 4400
  const CLOSE_AUTHORITY_CHANGED := 4401
  const CLOSE_FORBIDDEN_WRITE := 4403
  const CLOSE_DOCUMENT_DELETED := 4404

  /** The room will not take this page's work again. */
  predicate IsTerminal(code: nat)
  {
    code == CLOSE_INVALID_PAYLOAD || code == CLOSE_FORBIDDEN_WRITE || code == CLOSE_DOCUMENT_DELETED
  }

  /** The socket closed: for good, or to be opened again, after a change of authority without any role until then. */
  function OnDisconnect(p: Page, code: nat): Effect
  {
    if p.socket.Closed? then Quiet(p)
    else
      var down := p.(socket := Closed, serverSynced := false);
      if Stopped(p) then Quiet(down)
      else if IsTerminal(code) then TerminalRecovery(down)
      else if code == CLOSE_AUTHORITY_CHANGED then
        var revoked := ChangeRole(SetStatus(down, Offline), NO_ROLE);
        Effect(BeginConnect(revoked.page).page, revoked.jobs, [])
      else Quiet(SetStatus(down, Offline))
  }

  function GoOffline(p: Page): Effect
  {
    var down := if p.socket.Closed? then p else p.(socket := Closed, serverSynced := false);
    Quiet(if p.access then SetStatus(down, Offline) else down)
  }

  /** Page hide flushes and drops the socket without touching the synced flag. */
  function PageHide(p: Page): Effect
  {
    var flush := CheckpointJournal(p);
    Effect(flush.page.(socket := Closed), flush.jobs, [])
  }

  function ChangeRole(p: Page, role: nat): Effect
  {
    if role == p.role then Quiet(p) else CheckpointJournal(p.(role := role))
  }

  // ---------- Endings ----------

  function StorageError(p: Page): Page
  {
    if p.storageFatal then p
    else p.(storageFatal := true, localSaved := false, serverSynced := false, socket := Closed, status := Offline)
  }

  function TerminalRecovery(p: Page): Effect
  {
    if Stopped(p) then Quiet(p)
    else
      CheckpointJournal(SetStatus(p.(destroyed := true, role := NO_ROLE, serverSynced := false, socket := Closed), Offline))
  }

  function Destroy(p: Page): Effect
  {
    var flush := CheckpointJournal(p);
    Effect(flush.page.(destroyed := true, socket := Closed), flush.jobs, [])
  }

  // ---------- Continuations of journal jobs ----------

  /** After an append: a service session sends, a local one retires the append at once. */
  function AppendDone(p: Page, mutation: Mutation): Effect
  {
    var saved := p.(localSaved := true);
    if Stopped(p) then Quiet(saved)
    else if p.access then Effect(saved, [], if p.serverSynced && p.socket.Open? then [mutation] else [])
    else Effect(saved, [Retire(mutation.id, p.replica, 0, false, EmptyRecord(saved))], [])
  }

  function CheckpointDone(p: Page): Effect { Quiet(p.(localSaved := true)) }

  function RetireDone(p: Page, id: nat, version: set<Op>, fromServer: bool, reply: MissingReply): Effect
  {
    var retired := p.(pending := Without(p.pending, id), localSaved := true);
    if !fromServer || Stopped(p) then Quiet(retired)
    else if retired.pending == [] then SendMissingSince(retired, version, reply)
    else Quiet(if p.serverSynced then SetStatus(retired, Saving) else retired)
  }

  function JobFailed(p: Page): Effect { Quiet(StorageError(p.(localSaved := false))) }

  function JobDone(p: Page, job: Job, succeeded: bool, reply: MissingReply): Effect
  {
    if !succeeded then JobFailed(p)
    else
      match job
      case Append(mutation, _) => AppendDone(p, mutation)
      case Checkpoint(_) => CheckpointDone(p)
      case Retire(id, version, _, fromServer, _) => RetireDone(p, id, version, fromServer, reply)
  }

  predicate IsDurable(p: Page)
  {
    && !p.destroyed && !p.storageFatal && p.pending == [] && p.localSaved
    && (!p.access || (p.serverSynced && p.status == Connected))
  }

  // ---------- Opening ----------

  /** A page restored from a stored record: the snapshot applied, then every pending mutation imported. */
  function Restored(access: bool, record: Record): Page
  {
    Page(access, Recoverable(record), record.pending, Closed, false, if access then Connecting else Connected,
         None, record.acked, record.revision, record.role, record.prunedAt, true, false, false)
  }

  function Blank(access: bool, role: nat): Page
  {
    Page(access, {}, [], Closed, false, if access then Connecting else Connected, None, None, 0, role, 0, false, false, false)
  }

  /** A snapshot that cannot be applied leaves an empty replica, and destroy() checkpoints it. */
  function FailedOpen(access: bool, record: Record): Effect
  {
    Destroy(Restored(access, record).(replica := {}, localSaved := false, acked := None, revision := 0, prunedAt := 0))
  }

  // ---------- The class ----------

  class EsbtEngine {
    const access: bool
    var replica: set<Op>
    var pendingMutations: seq<Mutation>
    var socket: Socket
    var serverSynced: bool
    var currentStatus: Status
    var lastServerVV: Option<set<Op>>
    var lastAckedVersion: Option<set<Op>>
    var committedRevision: nat
    var permissionRole: nat
    var lastPruneAt: nat
    var localSaved: bool
    var storageFatal: bool
    var destroyed: bool
    /** Requests made to the journal lane, and frames handed to the socket, oldest first. */
    var requested: seq<Job>
    var sent: seq<Mutation>

    function View(): Page
      reads this
    {
      Page(access, replica, pendingMutations, socket, serverSynced, currentStatus, lastServerVV, lastAckedVersion,
           committedRevision, permissionRole, lastPruneAt, localSaved, storageFatal, destroyed)
    }

    constructor Restore(access: bool, record: Record)
      ensures View() == Restored(access, record) && requested == [] && sent == []
    {
      this.access := access;
      replica, pendingMutations := Recoverable(record), record.pending;
      socket, serverSynced, currentStatus := Closed, false, if access then Connecting else Connected;
      lastServerVV, lastAckedVersion, committedRevision := None, record.acked, record.revision;
      permissionRole, lastPruneAt := record.role, record.prunedAt;
      localSaved, storageFatal, destroyed := true, false, false;
      requested, sent := [], [];
    }

    /** The method did to the page, the journal lane and the socket exactly what the function says. */
    twostate predicate Did(effect: Effect)
      reads this
    {
      && View() == effect.page
      && requested == old(requested) + effect.jobs
      && sent == old(sent) + effect.sends
    }

    method SetCurrentStatus(status: Status)
      modifies this`currentStatus
      ensures View() == SetStatus(old(View()), status)
    {
      if storageFatal {
        currentStatus := Offline;
      } else if !access {
        currentStatus := Connected;
      } else {
        currentStatus := status;
      }
    }

    method PersistAndSendMutation(ops: set<Op>, kind: MutationKind, id: nat)
      modifies this
      ensures Did(PersistAndSend(old(View()), ops, kind, id))
    {
      if destroyed || storageFatal || ops == {} {
        return;
      }
      var mutation := Mutation(id, kind, ops);
      pendingMutations := pendingMutations + [mutation];
      if access && serverSynced {
        SetCurrentStatus(Saving);
      }
      requested := requested + [Append(mutation, EmptyRecord(View()))];
    }

    method SendMutation(mutation: Mutation)
      modifies this`sent
      ensures sent == old(sent) + if !Stopped(View()) && socket.Open? && serverSynced then [mutation] else []
    {
      if !(destroyed || storageFatal) && socket.Open? && serverSynced {
        sent := sent + [mutation];
      }
    }

    method SendPendingMutations()
      modifies this`sent
      ensures sent == old(sent) + SendPending(View())
    {
      if destroyed || storageFatal {
        return;
      }
      var k := 0;
      while k < |pendingMutations|
        invariant 0 <= k <= |pendingMutations|
        invariant sent == old(sent) + if socket.Open? && serverSynced then pendingMutations[..k] else []
      {
        SendMutation(pendingMutations[k]);
        k := k + 1;
      }
      assert pendingMutations[..|pendingMutations|] == pendingMutations;
    }

    method SendMissing(version: set<Op>, reply: MissingReply)
      modifies this
      ensures Did(SendMissingSince(old(View()), version, reply))
    {
      if destroyed || storageFatal {
        return;
      }
      if |pendingMutations| > 0 {
        SendPendingMutations();
        return;
      }
      if replica == version {
        if serverSynced {
          SetCurrentStatus(Connected);
        }
        return;
      }
      if !reply.succeeds {
        return;
      }
      if reply.payload == {} {
        if serverSynced {
          SetCurrentStatus(Connected);
        }
        return;
      }
      PersistAndSendMutation(reply.payload, reply.kind, reply.id);
    }

    method SynchronizeWithServer(reply: MissingReply)
      modifies this
      ensures Did(Synchronize(old(View()), reply))
    {
      if !serverSynced || destroyed || storageFatal {
        return;
      }
      if |pendingMutations| > 0 {
        SetCurrentStatus(Saving);
        SendPendingMutations();
        return;
      }
      if lastServerVV.Some? {
        SendMissing(lastServerVV.value, reply);
      } else {
        SetCurrentStatus(Connected);
      }
    }

    method RequestCheckpoint()
      modifies this`requested
      ensures Did(CheckpointJournal(old(View())))
    {
      if !storageFatal {
        requested := requested + [Checkpoint(EmptyRecord(View()))];
      }
    }

    method Edit(ops: set<Op>, id: nat)
      modifies this
      ensures Did(LocalEdit(old(View()), ops, id))
    {
      replica := replica + ops;
      localSaved := false;
      PersistAndSendMutation(ops, Update, id);
    }

    /** An update the replica rejects changes nothing. */
    method ImportTab(ops: set<Op>, imports: bool, isUpdate: bool, id: nat, reply: MissingReply)
      modifies this
      ensures Did(if imports then ImportFromTab(old(View()), ops, isUpdate, id, reply) else Quiet(old(View())))
    {
      if destroyed || storageFatal || ops == {} || !imports {
        return;
      }
      replica := replica + ops;
      if isUpdate {
        PersistAndSendMutation(ops, Update, id);
      } else if lastServerVV.Some? {
        SendMissing(lastServerVV.value, reply);
      }
    }

    method ImportServer(ops: set<Op>)
      modifies this
      ensures Did(ImportRemote(old(View()), ops))
    {
      if !destroyed && !storageFatal {
        replica := replica + ops;
      }
    }

    method ReceiveServerVersion(version: set<Op>)
      modifies this
      ensures Did(OnServerVersion(old(View()), version))
    {
      if !destroyed && !storageFatal {
        lastServerVV := Some(version);
      }
    }

    method ReceiveSynced(reply: MissingReply)
      modifies this
      ensures Did(OnSynced(old(View()), reply))
    {
      if !destroyed && !storageFatal {
        serverSynced := true;
        SynchronizeWithServer(reply);
      }
    }

    /** A receipt that does not decode changes nothing here: the socket is asked to close, and its closing comes later. */
    method HandleCommitted(receipt: Option<Receipt>)
      modifies this
      ensures Did(match receipt
                  case None => Quiet(old(View()))
                  case Some(r) => OnCommitted(old(View()), r.id, r.version, r.revision))
    {
      if destroyed || storageFatal || receipt.None? {
        return;
      }
      var Receipt(id, version, revision) := receipt.value;
      lastAckedVersion := Some(version);
      lastServerVV := Some(version);
      if revision > committedRevision {
        committedRevision := revision;
      }
      requested := requested + [Retire(id, version, revision, true, EmptyRecord(View()))];
    }

    method Connect()
      modifies this
      ensures Did(BeginConnect(old(View())))
    {
      if access && !destroyed && !storageFatal && socket.Closed? {
        SetCurrentStatus(Connecting);
      }
    }

    method Dial()
      modifies this
      ensures Did(OpenSocket(old(View())))
    {
      if !destroyed && !storageFatal {
        socket, serverSynced := Dialing, false;
      }
    }

    method Disconnected(code: nat)
      modifies this
      ensures Did(OnDisconnect(old(View()), code))
    {
      if socket.Closed? {
        return;
      }
      socket, serverSynced := Closed, false;
      if destroyed || storageFatal {
        return;
      }
      if IsTerminal(code) {
        EnterTerminalRecovery();
        return;
      }
      SetCurrentStatus(Offline);
      if code == CLOSE_AUTHORITY_CHANGED {
        ApplyPermissionRole(NO_ROLE);
        Connect();
      }
    }

    method HandleOffline()
      modifies this
      ensures Did(GoOffline(old(View())))
    {
      if !socket.Closed? {
        socket, serverSynced := Closed, false;
      }
      if access {
        SetCurrentStatus(Offline);
      }
    }

    method HandlePageHide()
      modifies this
      ensures Did(PageHide(old(View())))
    {
      RequestCheckpoint();
      socket := Closed;
    }

    method ApplyPermissionRole(role: nat)
      modifies this
      ensures Did(ChangeRole(old(View()), role))
    {
      if role != permissionRole {
        permissionRole := role;
        RequestCheckpoint();
      }
    }

    method RecordStorageError(fatal: bool)
      modifies this
      ensures View() == (if fatal then StorageError(old(View())) else old(View()))
      ensures requested == old(requested) && sent == old(sent)
    {
      if !storageFatal && fatal {
        storageFatal, localSaved, serverSynced, socket := true, false, false, Closed;
        SetCurrentStatus(Offline);
      }
    }

    method EnterTerminalRecovery()
      modifies this
      ensures Did(TerminalRecovery(old(View())))
    {
      if destroyed || storageFatal {
        return;
      }
      destroyed, permissionRole, serverSynced, socket := true, NO_ROLE, false, Closed;
      SetCurrentStatus(Offline);
      RequestCheckpoint();
    }

    method Close()
      modifies this
      ensures Did(Destroy(old(View())))
    {
      RequestCheckpoint();
      destroyed, socket := true, Closed;
    }

    /** The continuation of a finished journal job. */
    method JobSettled(job: Job, succeeded: bool, reply: MissingReply)
      modifies this
      ensures Did(JobDone(old(View()), job, succeeded, reply))
    {
      if !succeeded {
        localSaved := false;
        RecordStorageError(true);
        return;
      }
      match job {
        case Append(mutation, _) =>
          localSaved := true;
          if destroyed || storageFatal {
            return;
          }
          if access {
            if serverSynced {
              SendMutation(mutation);
            }
          } else {
            requested := requested + [Retire(mutation.id, replica, 0, false, EmptyRecord(View()))];
          }
        case Checkpoint(_) =>
          localSaved := true;
        case Retire(id, version, _, fromServer, _) =>
          pendingMutations := Without(pendingMutations, id);
          localSaved := true;
          if !fromServer || destroyed || storageFatal {
            return;
          }
          if |pendingMutations| == 0 {
            SendMissing(version, reply);
          } else if serverSynced {
            SetCurrentStatus(Saving);
          }
      }
    }
  }
}
