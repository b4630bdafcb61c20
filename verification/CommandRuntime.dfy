/**
 * The command runtime of client/src/commands/runtime.ts: the life of a run from its
 * proposal to its one receipt, over every interleaving of starts, approvals,
 * cancellations, deferred executions and executor results.
 */
module CommandRuntime {
  import opened Wrappers

  type Id = string

  datatype Status = AwaitingApproval | Proposed | Running | Succeeded | Failed | Cancelled

  datatype Source = Human | Keyboard | Palette | Agent | Bridge

  datatype Risk = Read | Write | External | Destructive

  datatype Invocation = Invocation(risk: Risk, source: Source, bypassApproval: bool)

  predicate NeedsApproval(asked: Invocation)
  {
    (asked.source.Agent? || asked.source.Bridge?) && (asked.risk.External? || asked.risk.Destructive?) && !asked.bypassApproval
  }

  datatype Run = Run(id: Id, asked: Invocation, status: Status)

  /** One call of the executor, and what held when it was made. */
  datatype Call = Call(id: Id, available: bool, approved: bool, settled: bool)

  /**
   * pending (in insertion order `order`), runs and receipts are the runtime's own.
   * queued are the deferred executions, executing the unfinished executor calls; the
   * rest is history: every id started, every receipt ever made, every promise resolved,
   * every executor call, and every approval that took effect.
   */
  datatype State = State(
    pending: map<Id, Run>,
    order: seq<Id>,
    runs: seq<Run>,
    receipts: seq<Run>,
    maxReceipts: nat,
    queued: seq<Id>,
    executing: seq<Id>,
    started: set<Id>,
    settled: seq<Run>,
    resolved: seq<Id>,
    calls: seq<Call>,
    approvals: set<Id>)

  const MAX_RUNS := 12

  function NewRuntime(maxReceipts: nat): State
  {
    State(map[], [], [], [], maxReceipts, [], [], {}, [], [], [], {})
  }

  // ---------- The runtime's operations ----------

  /** slice(-n): the last n, or everything when n is zero. */
  function Last<T>(xs: seq<T>, n: nat): seq<T>
  {
    if n == 0 || |xs| <= n then xs else xs[|xs| - n..]
  }

  function Without(xs: seq<Id>, id: Id): (r: seq<Id>)
    ensures forall x :: x in r <==> x in xs && x != id
  {
    if xs == [] then [] else (if xs[0] == id then [] else [xs[0]]) + Without(xs[1..], id)
  }

  function Replace(runs: seq<Run>, id: Id, run: Run): (r: seq<Run>)
    ensures |r| == |runs| && forall i :: 0 <= i < |runs| ==> r[i] == if runs[i].id == id then run else runs[i]
  {
    seq(|runs|, i requires 0 <= i < |runs| => if runs[i].id == id then run else runs[i])
  }

  predicate IsTerminal(status: Status) { status.Succeeded? || status.Failed? || status.Cancelled? }

  function Update(s: State, id: Id, status: Status): State
  {
    if id !in s.pending then s
    else
      var run := s.pending[id].(status := status);
      s.(pending := s.pending[id := run], runs := Replace(s.runs, id, run))
  }

  function Finish(s: State, id: Id, status: Status): State
  {
    if id !in s.pending then s
    else
      var receipt := s.pending[id].(status := status);
      s.(pending := s.pending - {id}, order := Without(s.order, id), runs := Replace(s.runs, id, receipt),
         receipts := Last(s.receipts + [receipt], s.maxReceipts),
         settled := s.settled + [receipt], resolved := s.resolved + [id])
  }

  function Enroll(s: State, run: Run): State
  {
    s.(pending := s.pending[run.id := run], order := Without(s.order, run.id) + [run.id],
       runs := Last(s.runs + [run], MAX_RUNS), started := s.started + {run.id})
  }

  /** A new run: rejected at once, or waiting for approval, or proposed and then deferred. */
  function Create(s: State, id: Id, asked: Invocation, accepted: bool): State
  {
    if !accepted then Finish(Enroll(s, Run(id, asked, Failed)), id, Failed)
    else Enroll(s, Run(id, asked, if NeedsApproval(asked) then AwaitingApproval else Proposed))
  }

  function Start(s: State, id: Id, asked: Invocation, accepted: bool): State
  {
    var t := Create(s, id, asked, accepted);
    if id in t.pending && t.pending[id].status.Proposed? then t.(queued := t.queued + [id]) else t
  }

  function Cancel(s: State, id: Id): State
  {
    if id !in s.pending || IsTerminal(s.pending[id].status) then s else Finish(s, id, Cancelled)
  }

  function FinishAll(s: State, ids: seq<Id>): State
    decreases |ids|
  {
    if ids == [] then s else FinishAll(Finish(s, ids[0], Cancelled), ids[1..])
  }

  /** What a listener does when it is told of a change, if anything. */
  datatype Reaction = Silent | CancelsRun(id: Id) | DestroysAll

  function React(s: State, reaction: Reaction): State
  {
    match reaction
    case Silent => s
    case CancelsRun(id) => Cancel(s, id)
    case DestroysAll => FinishAll(s, s.order)
  }

  predicate Ends(reaction: Reaction, id: Id) { reaction == CancelsRun(id) || reaction.DestroysAll? }

  /** Listeners are told that the run is running before the executor is called. */
  function Execute(s: State, id: Id, available: bool, running: Reaction): State
  {
    if id !in s.pending || !s.pending[id].status.Proposed? then s
    else if !available then Finish(s, id, Failed)
    else
      var u := React(Update(s, id, Running), running);
      u.(calls := u.calls + [Call(id, available, id in u.approvals, id !in u.pending)], executing := u.executing + [id])
  }

  /** Listeners are told of the approval before the run is executed. */
  function Approve(s: State, id: Id, approved: Reaction, available: bool, running: Reaction): State
  {
    if id !in s.pending || !s.pending[id].status.AwaitingApproval? then s
    else
      var t := Update(s, id, Proposed).(approvals := s.approvals + {id});
      Execute(React(t, approved), id, available, running)
  }

  // ---------- Runs of the whole runtime ----------

  datatype Event =
    | Starts(id: Id, asked: Invocation, accepted: bool)
    | Deferred(k: nat, available: bool, running: Reaction)
    | Approves(id: Id, approved: Reaction, available: bool, running: Reaction)
    | Cancels(id: Id)
    | Returns(k: nat, ok: bool)
    | Destroyed

  predicate Possible(s: State, e: Event)
  {
    match e
    case Starts(id, _, _) => id !in s.started
    case Deferred(k, _, _) => k < |s.queued|
    case Returns(k, _) => k < |s.executing|
    case _ => true
  }

  function Step(s: State, e: Event): State
    requires Possible(s, e)
  {
    match e
    case Starts(id, asked, accepted) => Start(s, id, asked, accepted)
    case Deferred(k, available, running) =>
      Execute(s.(queued := s.queued[..k] + s.queued[k + 1..]), s.queued[k], available, running)
    case Approves(id, approved, available, running) => Approve(s, id, approved, available, running)
    case Cancels(id) => Cancel(s, id)
    case Returns(k, ok) =>
      Finish(s.(executing := s.executing[..k] + s.executing[k + 1..]), s.executing[k], if ok then Succeeded else Failed)
    case Destroyed => FinishAll(s, s.order)
  }

  ghost predicate Legal(s: State, events: seq<Event>)
    decreases |events|
  {
    events == [] || (Possible(s, events[0]) && Legal(Step(s, events[0]), events[1..]))
  }

  function After(s: State, events: seq<Event>): State
    decreases |events|
  {
    if events == [] || !Possible(s, events[0]) then s else After(Step(s, events[0]), events[1..])
  }

  // ---------- The invariant ----------

  predicate IsSettled(s: State, id: Id) { id in s.resolved }

  /** Every run started is pending, or has been resolved once with one receipt. */
  ghost predicate Ledger(s: State)
  {
    && (forall id :: id in s.pending ==> s.pending[id].id == id && !IsTerminal(s.pending[id].status))
    && (forall id :: id in s.order <==> id in s.pending)
    && (forall id :: id in s.started <==> id in s.pending || id in s.resolved)
    && (forall id :: id in s.pending ==> id !in s.resolved)
    && |s.settled| == |s.resolved|
    && (forall i :: 0 <= i < |s.settled| ==> s.settled[i].id == s.resolved[i] && IsTerminal(s.settled[i].status))
    && (forall i, j :: 0 <= i < j < |s.resolved| ==> s.resolved[i] != s.resolved[j])
  }

  /** A run the executor was called for is running or over. */
  ghost predicate Called(s: State)
  {
    && (forall i :: 0 <= i < |s.calls| ==>
          && s.calls[i].id in s.started && s.calls[i].available
          && (s.calls[i].id in s.pending ==> s.pending[s.calls[i].id].status.Running?))
    && (forall i, j :: 0 <= i < j < |s.calls| ==> s.calls[i].id != s.calls[j].id)
  }

  /** A guarded run without approval is still waiting for it, or was never called. */
  ghost predicate Guarded(s: State)
  {
    && s.approvals <= s.started
    && (forall id :: id in s.pending && NeedsApproval(s.pending[id].asked) && id !in s.approvals ==> s.pending[id].status.AwaitingApproval?)
    && (forall i, j :: 0 <= i < |s.calls| && 0 <= j < |s.settled| && s.settled[j].id == s.calls[i].id && NeedsApproval(s.settled[j].asked) ==>
          s.calls[i].approved)
    && (forall i :: 0 <= i < |s.calls| && s.calls[i].id in s.pending && NeedsApproval(s.pending[s.calls[i].id].asked) ==> s.calls[i].approved)
  }

  /** What the panel sees: the latest receipts, and each listed run as it stands. */
  ghost predicate Shown(s: State)
  {
    && s.receipts == Last(s.settled, s.maxReceipts)
    && (forall i :: 0 <= i < |s.runs| ==>
          if s.runs[i].id in s.pending then s.runs[i] == s.pending[s.runs[i].id] else s.runs[i] in s.settled)
  }

  ghost predicate Inv(s: State) { Ledger(s) && Called(s) && Guarded(s) && Shown(s) }

  // ---------- Every operation keeps it ----------

  lemma LastOfLast<T>(xs: seq<T>, x: T, n: nat)
    ensures Last(Last(xs, n) + [x], n) == Last(xs + [x], n)
  {
  }

  lemma FinishLedger(s: State, id: Id, status: Status)
    requires Ledger(s) && IsTerminal(status)
    ensures Ledger(Finish(s, id, status))
  {
  }

  lemma FinishKeepsInv(s: State, id: Id, status: Status)
    requires Inv(s) && IsTerminal(status)
    ensures Inv(Finish(s, id, status))
  {
    FinishLedger(s, id, status);
    if id in s.pending {
      LastOfLast(s.settled, s.pending[id].(status := status), s.maxReceipts);
    }
  }

  lemma {:induction false} FinishAllKeepsInv(s: State, ids: seq<Id>)
    requires Inv(s)
    ensures Inv(FinishAll(s, ids))
    decreases |ids|
  {
    if ids != [] {
      FinishKeepsInv(s, ids[0], Cancelled);
      FinishAllKeepsInv(Finish(s, ids[0], Cancelled), ids[1..]);
    }
  }

  lemma RunningKeepsInv(s: State, id: Id)
    requires Inv(s) && id in s.pending && s.pending[id].status.Proposed?
    ensures Inv(Update(s, id, Running))
  {
  }

  lemma CalledKeepsInv(s: State, id: Id, settled: bool)
    requires Inv(s) && id in s.started && (id in s.pending ==> s.pending[id].status.Running?)
    requires forall i :: 0 <= i < |s.calls| ==> s.calls[i].id != id
    requires id in s.pending && NeedsApproval(s.pending[id].asked) ==> id in s.approvals
    requires forall j :: 0 <= j < |s.settled| && s.settled[j].id == id && NeedsApproval(s.settled[j].asked) ==> id in s.approvals
    ensures Inv(s.(calls := s.calls + [Call(id, true, id in s.approvals, settled)], executing := s.executing + [id]))
  {
  }

  lemma ReactKeepsInv(s: State, reaction: Reaction)
    requires Inv(s)
    ensures Inv(React(s, reaction))
  {
    match reaction
    case Silent =>
    case CancelsRun(id) => FinishKeepsInv(s, id, Cancelled);
    case DestroysAll => FinishAllKeepsInv(s, s.order);
  }

  /** A reaction ends runs and does nothing else: a run it does not end stays as it is. */
  lemma ReactEnds(s: State, reaction: Reaction)
    requires Ledger(s)
    ensures var t := React(s, reaction);
      && t.calls == s.calls && t.approvals == s.approvals && t.started == s.started
      && (forall id :: id in t.pending <==> id in s.pending && !Ends(reaction, id))
      && (forall id :: id in t.pending ==> t.pending[id] == s.pending[id])
      && |t.settled| >= |s.settled| && t.settled[..|s.settled|] == s.settled
      && forall j :: |s.settled| <= j < |t.settled| ==>
           t.settled[j].id in s.pending && t.settled[j].asked == s.pending[t.settled[j].id].asked
  {
    if reaction.DestroysAll? {
      FinishAllEnds(s, s.order);
    }
  }

  lemma {:induction false} FinishAllEnds(s: State, ids: seq<Id>)
    requires Ledger(s)
    ensures var t := FinishAll(s, ids);
      && t.calls == s.calls && t.approvals == s.approvals && t.started == s.started
      && (forall id :: id in t.pending <==> id in s.pending && id !in ids)
      && (forall id :: id in t.pending ==> t.pending[id] == s.pending[id])
      && |t.settled| >= |s.settled| && t.settled[..|s.settled|] == s.settled
      && forall j :: |s.settled| <= j < |t.settled| ==>
           t.settled[j].id in s.pending && t.settled[j].asked == s.pending[t.settled[j].id].asked
    decreases |ids|
  {
    if ids != [] {
      var next := Finish(s, ids[0], Cancelled);
      FinishLedger(s, ids[0], Cancelled);
      FinishAllEnds(next, ids[1..]);
      assert ids == [ids[0]] + ids[1..];
    }
  }

  /** After the reaction the run is running or over, and nothing of its licence has changed. */
  lemma RunningCanBeCalled(s: State, id: Id, running: Reaction)
    requires Inv(s) && id in s.pending && s.pending[id].status.Proposed?
    ensures var u := React(Update(s, id, Running), running);
      && Inv(u) && id in u.started && (id in u.pending ==> u.pending[id].status.Running?)
      && (forall i :: 0 <= i < |u.calls| ==> u.calls[i].id != id)
      && (id in u.pending && NeedsApproval(u.pending[id].asked) ==> id in u.approvals)
      && (forall j :: 0 <= j < |u.settled| && u.settled[j].id == id && NeedsApproval(u.settled[j].asked) ==> id in u.approvals)
  {
    RunningKeepsInv(s, id);
    var t := Update(s, id, Running);
    ReactKeepsInv(t, running);
    ReactEnds(t, running);
    var u := React(t, running);
    assert forall j :: 0 <= j < |s.settled| ==> s.settled[j].id != id && u.settled[j] == s.settled[j];
  }

  lemma ExecuteKeepsInv(s: State, id: Id, available: bool, running: Reaction)
    requires Inv(s)
    ensures Inv(Execute(s, id, available, running))
  {
    if id in s.pending && s.pending[id].status.Proposed? {
      if !available {
        FinishKeepsInv(s, id, Failed);
      } else {
        RunningCanBeCalled(s, id, running);
        var u := React(Update(s, id, Running), running);
        CalledKeepsInv(u, id, id !in u.pending);
      }
    }
  }

  lemma ApproveKeepsInv(s: State, id: Id, approved: Reaction, available: bool, running: Reaction)
    requires Inv(s)
    ensures Inv(Approve(s, id, approved, available, running))
  {
    if id in s.pending && s.pending[id].status.AwaitingApproval? {
      var t := Update(s, id, Proposed).(approvals := s.approvals + {id});
      assert Inv(t);
      ReactKeepsInv(t, approved);
      ExecuteKeepsInv(React(t, approved), id, available, running);
    }
  }

  lemma EnrollLedger(s: State, run: Run)
    requires Ledger(s) && run.id !in s.started && !IsTerminal(run.status)
    ensures Ledger(Enroll(s, run))
  {
  }

  lemma EnrollKeepsInv(s: State, run: Run)
    requires Inv(s) && run.id !in s.started && !IsTerminal(run.status)
    requires NeedsApproval(run.asked) ==> run.status.AwaitingApproval?
    ensures Inv(Enroll(s, run))
  {
    EnrollLedger(s, run);
  }

  /** A run rejected as it is created ends like one that failed while it waited. */
  lemma RejectionIsFailure(s: State, id: Id, asked: Invocation)
    ensures Finish(Enroll(s, Run(id, asked, Failed)), id, Failed)
         == Finish(Enroll(s, Run(id, asked, AwaitingApproval)), id, Failed)
  {
    var a, b := Enroll(s, Run(id, asked, Failed)), Enroll(s, Run(id, asked, AwaitingApproval));
    var receipt := Run(id, asked, Failed);
    assert a.pending - {id} == b.pending - {id};
    assert Replace(a.runs, id, receipt) == Replace(b.runs, id, receipt);
  }

  lemma StartKeepsInv(s: State, id: Id, asked: Invocation, accepted: bool)
    requires Inv(s) && id !in s.started
    ensures Inv(Start(s, id, asked, accepted))
  {
    if accepted {
      EnrollKeepsInv(s, Run(id, asked, if NeedsApproval(asked) then AwaitingApproval else Proposed));
    } else {
      RejectionIsFailure(s, id, asked);
      EnrollKeepsInv(s, Run(id, asked, AwaitingApproval));
      FinishKeepsInv(Enroll(s, Run(id, asked, AwaitingApproval)), id, Failed);
    }
  }

  lemma DeferredKeepsInv(s: State, e: Event)
    requires Inv(s) && Possible(s, e) && e.Deferred?
    ensures Inv(Step(s, e))
  {
    var t := s.(queued := s.queued[..e.k] + s.queued[e.k + 1..]);
    assert Inv(t);
    ExecuteKeepsInv(t, s.queued[e.k], e.available, e.running);
  }

  lemma ReturnsKeepsInv(s: State, e: Event)
    requires Inv(s) && Possible(s, e) && e.Returns?
    ensures Inv(Step(s, e))
  {
    var t := s.(executing := s.executing[..e.k] + s.executing[e.k + 1..]);
    assert Inv(t);
    FinishKeepsInv(t, s.executing[e.k], if e.ok then Succeeded else Failed);
  }

  lemma EndingKeepsInv(s: State, e: Event)
    requires Inv(s) && (e.Cancels? || e.Destroyed?)
    ensures Inv(Step(s, e))
  {
    if e.Cancels? {
      FinishKeepsInv(s, e.id, Cancelled);
    } else {
      FinishAllKeepsInv(s, s.order);
    }
  }

  lemma StepKeepsInv(s: State, e: Event)
    requires Inv(s) && Possible(s, e)
    ensures Inv(Step(s, e))
  {
    match e
    case Starts(id, asked, accepted) => StartKeepsInv(s, id, asked, accepted);
    case Deferred(_, _, _) => DeferredKeepsInv(s, e);
    case Approves(id, approved, available, running) => ApproveKeepsInv(s, id, approved, available, running);
    case Returns(_, _) => ReturnsKeepsInv(s, e);
    case _ => EndingKeepsInv(s, e);
  }

  lemma {:induction false} RunKeepsInv(s: State, events: seq<Event>)
    requires Inv(s) && Legal(s, events)
    ensures Inv(After(s, events))
    decreases |events|
  {
    if events != [] {
      StepKeepsInv(s, events[0]);
      RunKeepsInv(Step(s, events[0]), events[1..]);
    }
  }

  lemma ReachedInv(maxReceipts: nat, events: seq<Event>)
    requires Legal(NewRuntime(maxReceipts), events)
    ensures Inv(After(NewRuntime(maxReceipts), events))
  {
    RunKeepsInv(NewRuntime(maxReceipts), events);
  }

  // ---------- What every run of the runtime keeps ----------

  /** Each run started is either pending or has exactly one receipt and one resolved promise. */
  lemma EachRunSettlesOnce(maxReceipts: nat, events: seq<Event>, id: Id)
    requires Legal(NewRuntime(maxReceipts), events) && id in After(NewRuntime(maxReceipts), events).started
    ensures var s := After(NewRuntime(maxReceipts), events);
      && (id in s.pending <==> id !in s.resolved)
      && (id !in s.pending ==> exists receipt :: receipt in s.settled && receipt.id == id && IsTerminal(receipt.status))
      && (forall i, j :: 0 <= i < j < |s.settled| ==> s.settled[i].id != s.settled[j].id)
      && |s.settled| == |s.resolved|
  {
    ReachedInv(maxReceipts, events);
    var s := After(NewRuntime(maxReceipts), events);
    if id !in s.pending {
      var i :| 0 <= i < |s.resolved| && s.resolved[i] == id;
      assert s.settled[i].id == id && s.settled[i] in s.settled;
    }
  }

  /** The executor is called at most once per run, only when the command was available, and for a guarded run only once approved. */
  lemma ExecutorCallsAreLicensed(maxReceipts: nat, events: seq<Event>, i: nat)
    requires Legal(NewRuntime(maxReceipts), events) && i < |After(NewRuntime(maxReceipts), events).calls|
    ensures var s := After(NewRuntime(maxReceipts), events);
      var call := s.calls[i];
      && call.available
      && (forall j :: 0 <= j < |s.calls| && j != i ==> s.calls[j].id != call.id)
      && (if call.id in s.pending then NeedsApproval(s.pending[call.id].asked) ==> call.approved
          else exists receipt :: receipt in s.settled && receipt.id == call.id && (NeedsApproval(receipt.asked) ==> call.approved))
  {
    ReachedInv(maxReceipts, events);
    var s := After(NewRuntime(maxReceipts), events);
    var id := s.calls[i].id;
    if id !in s.pending {
      EachRunSettlesOnce(maxReceipts, events, id);
    }
    assert forall j :: 0 <= j < i ==> s.calls[j].id != id;
  }

  /** The run an event calls the executor for, judged before the event. */
  function Due(s: State, e: Event): Option<Id>
    requires Possible(s, e)
  {
    match e
    case Deferred(k, available, _) =>
      var id := s.queued[k];
      if id in s.pending && s.pending[id].status.Proposed? && available then Some(id) else None
    case Approves(id, approved, available, _) =>
      if id in s.pending && s.pending[id].status.AwaitingApproval? && !Ends(approved, id) && available then Some(id) else None
    case _ => None
  }

  /**
   * Which steps call the executor, for which run, and with what approval. The call is for
   * a run that is already over exactly when a listener that is told the run is running
   * cancels that run or destroys the runtime.
   */
  lemma CalledAfterCancelIff(maxReceipts: nat, events: seq<Event>, e: Event)
    requires Legal(NewRuntime(maxReceipts), events) && Possible(After(NewRuntime(maxReceipts), events), e)
    ensures var s := After(NewRuntime(maxReceipts), events);
      var t, due := Step(s, e), Due(s, e);
      && (due.None? ==> t.calls == s.calls)
      && (due.Some? ==>
            && due.value !in s.resolved
            && t.calls == s.calls + [Call(due.value, true, e.Approves? || due.value in s.approvals, Ends(e.running, due.value))]
            && (due.value in t.resolved <==> Ends(e.running, due.value)))
  {
    ReachedInv(maxReceipts, events);
    var s := After(NewRuntime(maxReceipts), events);
    StepKeepsInv(s, e);
    match e {
      case Deferred(_, _, _) => DeferredCalls(s, e);
      case Approves(_, _, _, _) => ApprovalCalls(s, e);
      case Destroyed => FinishAllEnds(s, s.order);
      case _ =>
    }
  }

  lemma DeferredCalls(s: State, e: Event)
    requires Inv(s) && Possible(s, e) && e.Deferred?
    ensures var t, id := Step(s, e), s.queued[e.k];
      if Due(s, e).Some?
      then id in t.started && t.calls == s.calls + [Call(id, true, id in s.approvals, Ends(e.running, id))] && (id in t.pending <==> !Ends(e.running, id))
      else t.calls == s.calls
  {
    var t := s.(queued := s.queued[..e.k] + s.queued[e.k + 1..]);
    assert Inv(t);
    ExecuteCalls(t, s.queued[e.k], e.available, e.running);
  }

  lemma ApprovalCalls(s: State, e: Event)
    requires Inv(s) && e.Approves?
    ensures var t, id := Step(s, e), e.id;
      if Due(s, e).Some?
      then id in t.started && t.calls == s.calls + [Call(id, true, true, Ends(e.running, id))] && (id in t.pending <==> !Ends(e.running, id))
      else t.calls == s.calls
  {
    if e.id in s.pending && s.pending[e.id].status.AwaitingApproval? {
      var t := Update(s, e.id, Proposed).(approvals := s.approvals + {e.id});
      assert Inv(t);
      ReactKeepsInv(t, e.approved);
      ReactEnds(t, e.approved);
      ExecuteCalls(React(t, e.approved), e.id, e.available, e.running);
    }
  }

  lemma ExecuteCalls(s: State, id: Id, available: bool, running: Reaction)
    requires Inv(s)
    ensures var t := Execute(s, id, available, running);
      if id in s.pending && s.pending[id].status.Proposed? && available
      then id in t.started && t.calls == s.calls + [Call(id, true, id in s.approvals, Ends(running, id))] && (id in t.pending <==> !Ends(running, id))
      else t.calls == s.calls
  {
    if id in s.pending && s.pending[id].status.Proposed? && available {
      RunningKeepsInv(s, id);
      ReactEnds(Update(s, id, Running), running);
    }
  }

  const PALETTE_READ := Invocation(Read, Palette, false)

  /** Such a call is made: by a listener that cancels the run it hears of, and by one that destroys the runtime. */
  lemma SettledCallIsReachable(maxReceipts: nat, ends: Reaction)
    requires Ends(ends, "run")
    ensures var events := [Starts("run", PALETTE_READ, true), Deferred(0, true, ends)];
      && Legal(NewRuntime(maxReceipts), events)
      && var s := After(NewRuntime(maxReceipts), events);
      s.calls == [Call("run", true, false, true)] && "run" in s.resolved
  {
    var s := NewRuntime(maxReceipts);
    var events := [Starts("run", PALETTE_READ, true), Deferred(0, true, ends)];
    var started := Step(s, events[0]);
    var none: seq<Id>, noCalls: seq<Call> := [], [];
    assert none + ["run"] == ["run"];
    assert !NeedsApproval(PALETTE_READ);
    assert started.pending["run"] == Run("run", PALETTE_READ, Proposed);
    assert started.queued == ["run"];
    assert noCalls + [Call("run", true, false, true)] == [Call("run", true, false, true)];
    assert ["run"][0] == "run" && events[1..] == [events[1]] && events[1..][1..] == [];
    var ended := Step(started, events[1]);
    assert After(ended, []) == ended;
    assert After(started, events[1..]) == ended;
    CalledAfterCancelIff(maxReceipts, [events[0]], events[1]);
    assert [events[0]][1..] == [];
  }

  /** After destroy nothing is pending, and every run ever started has been resolved. */
  lemma DestroySettlesAll(maxReceipts: nat, events: seq<Event>)
    requires Legal(NewRuntime(maxReceipts), events)
    ensures var t := Step(After(NewRuntime(maxReceipts), events), Destroyed);
      t.pending == map[] && forall id :: id in t.started ==> id in t.resolved
  {
    ReachedInv(maxReceipts, events);
    var s := After(NewRuntime(maxReceipts), events);
    StepKeepsInv(s, Destroyed);
    FinishAllEmpties(s, s.order);
  }

  lemma {:induction false} FinishAllEmpties(s: State, ids: seq<Id>)
    ensures forall id :: id in FinishAll(s, ids).pending ==> id in s.pending && id !in ids
    decreases |ids|
  {
    if ids != [] {
      FinishAllEmpties(Finish(s, ids[0], Cancelled), ids[1..]);
      assert ids == [ids[0]] + ids[1..];
    }
  }

  /** The panel shows the latest receipts, and every listed run as it stands or as it ended. */
  lemma PanelIsCurrent(maxReceipts: nat, events: seq<Event>)
    requires Legal(NewRuntime(maxReceipts), events)
    ensures var s := After(NewRuntime(maxReceipts), events);
      && s.receipts == Last(s.settled, s.maxReceipts)
      && (forall i :: 0 <= i < |s.runs| ==>
            if s.runs[i].id in s.pending then s.runs[i] == s.pending[s.runs[i].id] else s.runs[i] in s.settled)
  {
    ReachedInv(maxReceipts, events);
  }

  // ---------- The runtime, updated in place ----------

  class Runtime {
    var pending: map<Id, Run>
    var order: seq<Id>
    var runs: seq<Run>
    var receipts: seq<Run>
    const maxReceipts: nat
    /** What subscribers read. */
    var snapshotRuns: seq<Run>
    var snapshotReceipts: seq<Run>
    /** Deferred executions and unfinished executor calls. */
    var queued: seq<Id>
    var executing: seq<Id>
    /** History. */
    var started: set<Id>
    var settled: seq<Run>
    var resolved: seq<Id>
    var calls: seq<Call>
    var approvals: set<Id>

    function View(): State
      reads this
    {
      State(pending, order, runs, receipts, maxReceipts, queued, executing, started, settled, resolved, calls, approvals)
    }

    /** Subscribers see the present lists. */
    predicate Current()
      reads this
    {
      snapshotRuns == runs && snapshotReceipts == receipts
    }

    constructor (maxReceipts: nat)
      ensures View() == NewRuntime(maxReceipts) && Current()
    {
      pending, order, runs, receipts, this.maxReceipts := map[], [], [], [], maxReceipts;
      snapshotRuns, snapshotReceipts, queued, executing := [], [], [], [];
      started, settled, resolved, calls, approvals := {}, [], [], [], {};
    }

    method Publish()
      modifies this`snapshotRuns, this`snapshotReceipts
      ensures Current()
    {
      snapshotRuns, snapshotReceipts := runs, receipts;
    }

    method UpdateRun(id: Id, status: Status)
      requires Current()
      modifies this
      ensures View() == Update(old(View()), id, status) && Current()
    {
      if id !in pending {
        return;
      }
      var run := pending[id].(status := status);
      pending := pending[id := run];
      runs := Replace(runs, id, run);
      Publish();
    }

    /** The run leaves pending, and its receipt takes its place in both lists. */
    method Retire(id: Id, receipt: Run)
      modifies this`pending, this`order, this`runs, this`receipts, this`settled
      ensures pending == old(pending) - {id} && order == Without(old(order), id)
      ensures runs == Replace(old(runs), id, receipt)
      ensures receipts == Last(old(receipts) + [receipt], maxReceipts) && settled == old(settled) + [receipt]
    {
      pending, order := pending - {id}, Without(order, id);
      runs := Replace(runs, id, receipt);
      receipts := Last(receipts + [receipt], maxReceipts);
      settled := settled + [receipt];
    }

    method FinishRun(id: Id, status: Status)
      requires Current()
      modifies this
      ensures View() == Finish(old(View()), id, status) && Current()
    {
      if id !in pending {
        return;
      }
      var receipt := pending[id].(status := status);
      Retire(id, receipt);
      Publish();
      resolved := resolved + [id];
    }

    method EnrollRun(run: Run)
      modifies this
      ensures View() == Enroll(old(View()), run) && Current()
    {
      pending, order := pending[run.id := run], Without(order, run.id) + [run.id];
      runs := Last(runs + [run], MAX_RUNS);
      started := started + {run.id};
      Publish();
    }

    method CreateRun(id: Id, asked: Invocation, accepted: bool)
      requires Current() && id !in started
      modifies this
      ensures View() == Create(old(View()), id, asked, accepted) && Current()
    {
      var run := Run(id, asked, if !accepted then Failed else if NeedsApproval(asked) then AwaitingApproval else Proposed);
      EnrollRun(run);
      if run.status.Failed? {
        FinishRun(id, Failed);
      }
    }

    method StartRun(id: Id, asked: Invocation, accepted: bool)
      requires Current() && Possible(View(), Starts(id, asked, accepted))
      modifies this
      ensures View() == Step(old(View()), Starts(id, asked, accepted)) && Current()
    {
      CreateRun(id, asked, accepted);
      if id in pending && pending[id].status.Proposed? {
        queued := queued + [id];
      }
    }

    method Notify(reaction: Reaction)
      requires Current()
      modifies this
      ensures View() == React(old(View()), reaction) && Current()
    {
      match reaction {
        case Silent =>
        case CancelsRun(id) => CancelRun(id);
        case DestroysAll => Destroy();
      }
    }

    method ExecuteRun(id: Id, available: bool, running: Reaction)
      requires Current()
      modifies this
      ensures View() == Execute(old(View()), id, available, running) && Current()
    {
      if id !in pending || !pending[id].status.Proposed? {
        return;
      }
      if !available {
        FinishRun(id, Failed);
        return;
      }
      UpdateRun(id, Running);
      Notify(running);
      calls := calls + [Call(id, available, id in approvals, id !in pending)];
      executing := executing + [id];
    }

    method RunDeferred(k: nat, available: bool, running: Reaction)
      requires Current() && Possible(View(), Deferred(k, available, running))
      modifies this
      ensures View() == Step(old(View()), Deferred(k, available, running)) && Current()
    {
      var id := queued[k];
      queued := queued[..k] + queued[k + 1..];
      ExecuteRun(id, available, running);
    }

    method ApproveRun(id: Id, approved: Reaction, available: bool, running: Reaction)
      requires Current()
      modifies this
      ensures View() == Step(old(View()), Approves(id, approved, available, running)) && Current()
    {
      if id !in pending || !pending[id].status.AwaitingApproval? {
        return;
      }
      UpdateRun(id, Proposed);
      approvals := approvals + {id};
      Notify(approved);
      ExecuteRun(id, available, running);
    }

    method CancelRun(id: Id)
      requires Current()
      modifies this
      ensures View() == Step(old(View()), Cancels(id)) && Current()
    {
      if id !in pending || IsTerminal(pending[id].status) {
        return;
      }
      FinishRun(id, Cancelled);
    }

    /** The executor's promise settles; a run cancelled meanwhile is no longer pending and stays as it ended. */
    method ExecutorSettled(k: nat, ok: bool)
      requires Current() && Possible(View(), Returns(k, ok))
      modifies this
      ensures View() == Step(old(View()), Returns(k, ok)) && Current()
    {
      var id := executing[k];
      executing := executing[..k] + executing[k + 1..];
      FinishRun(id, if ok then Succeeded else Failed);
    }

    method Destroy()
      requires Current()
      modifies this
      ensures View() == Step(old(View()), Destroyed) && Current()
    {
      var ids := order;
      for k := 0 to |ids|
        invariant Current() && FinishAll(View(), ids[k..]) == FinishAll(old(View()), ids)
      {
        assert ids[k..][0] == ids[k] && ids[k..][1..] == ids[k + 1..];
        FinishRun(ids[k], Cancelled);
      }
    }
  }
}
