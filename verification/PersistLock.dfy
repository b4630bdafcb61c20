/**
 * The per-document write lane of client/src/browser/persist-lock.ts.
 *
 * Every interleaving is a run of small events: a request is made, joins its name's
 * queue one microtask later, gets its turn when its predecessor has settled, may have
 * to wait for the browser's lock, runs its body, settles.  At any moment its timer may
 * fire, which detaches the caller from work that goes on, and poisons the name.
 */
module PersistLock {
  import opened Wrappers

  // ---------- State ----------

  datatype Phase =
    | Asked
    | Waiting(prev: Option<nat>)
    | Locking
    | Running
    | Settled

  datatype Request = Request(name: string, phase: Phase, aborted: bool)

  /**
   * tails and poisoned are the source's two maps.  requests are all promises ever made,
   * in request order, of which the first `entered` have joined a queue; starts lists
   * the requests whose bodies began, in that order.
   */
  datatype Lanes = Lanes(
    tails: map<string, nat>,
    poisoned: set<string>,
    requests: seq<Request>,
    entered: nat,
    starts: seq<nat>)

  const NO_LANES := Lanes(map[], {}, [], 0, [])

  datatype Event =
    | Ask(name: string, hasBudget: bool)
    | Enter
    | Turn(k: nat, webLocks: bool)
    | Granted(k: nat)
    | Refused(k: nat)
    | Finish(k: nat)
    | Expire(k: nat)
    | Poison(k: nat)
    | Forget(k: nat)

  // ---------- Steps ----------

  predicate In(s: Lanes, k: nat, phase: Phase) { k < |s.requests| && s.requests[k].phase == phase }

  predicate IsSettled(s: Lanes, prev: Option<nat>)
  {
    prev.Some? ==> In(s, prev.value, Settled)
  }

  predicate Possible(s: Lanes, e: Event)
  {
    match e
    case Ask(_, _) => true
    case Enter => s.entered < |s.requests| && s.requests[s.entered].phase.Asked?
    case Turn(k, _) => k < |s.requests| && s.requests[k].phase.Waiting? && IsSettled(s, s.requests[k].phase.prev)
    case Granted(k) => In(s, k, Locking)
    case Refused(k) => In(s, k, Locking)
    case Finish(k) => In(s, k, Running)
    case Expire(k) => k < |s.requests| && !s.requests[k].phase.Settled?
    case Poison(k) => k < |s.requests| && s.requests[k].aborted
    case Forget(k) => In(s, k, Settled)
  }

  function Moved(s: Lanes, k: nat, phase: Phase): Lanes
    requires k < |s.requests|
  {
    s.(requests := s.requests[k := s.requests[k].(phase := phase)])
  }

  predicate MayRun(s: Lanes, k: nat)
    requires k < |s.requests|
  {
    s.requests[k].name !in s.poisoned && !s.requests[k].aborted
  }

  function Started(s: Lanes, k: nat): Lanes
    requires k < |s.requests|
  {
    Moved(s, k, Running).(starts := s.starts + [k])
  }

  function Step(s: Lanes, e: Event): Lanes
    requires Possible(s, e)
  {
    match e
    case Ask(name, hasBudget) =>
      if name in s.poisoned then s
      else if !hasBudget then s.(poisoned := s.poisoned + {name})
      else s.(requests := s.requests + [Request(name, Asked, false)])
    case Enter =>
      var name := s.requests[s.entered].name;
      var prev := if name in s.tails then Some(s.tails[name]) else None;
      Moved(s, s.entered, Waiting(prev)).(tails := s.tails[name := s.entered], entered := s.entered + 1)
    case Turn(k, webLocks) =>
      if !MayRun(s, k) then Moved(s, k, Settled)
      else if webLocks then Moved(s, k, Locking)
      else Started(s, k)
    case Granted(k) => if MayRun(s, k) then Started(s, k) else Moved(s, k, Settled)
    case Refused(k) => Moved(s, k, Settled)
    case Finish(k) => Moved(s, k, Settled)
    case Expire(k) => s.(requests := s.requests[k := s.requests[k].(aborted := true)])
    case Poison(k) => s.(poisoned := s.poisoned + {s.requests[k].name})
    case Forget(k) =>
      var name := s.requests[k].name;
      if name in s.tails && s.tails[name] == k then s.(tails := s.tails - {name}) else s
  }

  ghost predicate Legal(s: Lanes, events: seq<Event>)
    decreases |events|
  {
    events == [] || (Possible(s, events[0]) && Legal(Step(s, events[0]), events[1..]))
  }

  function After(s: Lanes, events: seq<Event>): Lanes
    decreases |events|
  {
    if events == [] || !Possible(s, events[0]) then s else After(Step(s, events[0]), events[1..])
  }

  // ---------- The invariant ----------

  predicate Over(rs: seq<Request>, k: nat) { k < |rs| && rs[k].phase.Settled? }

  predicate SameName(rs: seq<Request>, i: nat, k: nat)
  {
    i < |rs| && k < |rs| && rs[i].name == rs[k].name
  }

  /** All earlier requests under the same name are over. */
  ghost predicate Clear(rs: seq<Request>, k: nat)
  {
    forall i: nat :: i < k && SameName(rs, i, k) ==> Over(rs, i)
  }

  /** The request that k waits for is the last one before it under its name. */
  ghost predicate Follows(rs: seq<Request>, k: nat, prev: Option<nat>)
  {
    match prev
    case None => Clear(rs, k)
    case Some(j) => j < k && SameName(rs, j, k) && forall i: nat :: i < k && SameName(rs, i, k) ==> i <= j
  }

  ghost predicate Queued(rs: seq<Request>, entered: nat, k: nat)
    requires k < |rs|
  {
    match rs[k].phase
    case Asked => k >= entered
    case Waiting(prev) => k < entered && Follows(rs, k, prev)
    case _ => k < entered && Clear(rs, k)
  }

  predicate Joined(rs: seq<Request>, entered: nat, name: string, i: nat)
  {
    i < entered && i < |rs| && rs[i].name == name
  }

  /** A name's tail is its latest request; a forgotten tail means all its requests are over. */
  ghost predicate TailRight(rs: seq<Request>, entered: nat, tails: map<string, nat>, name: string)
  {
    if name in tails then
      && Joined(rs, entered, name, tails[name])
      && (forall i: nat :: Joined(rs, entered, name, i) ==> i <= tails[name])
    else
      forall i: nat :: Joined(rs, entered, name, i) ==> Over(rs, i)
  }

  ghost predicate TailsRight(rs: seq<Request>, entered: nat, tails: map<string, nat>)
  {
    forall name :: TailRight(rs, entered, tails, name)
  }

  ghost predicate Logged(rs: seq<Request>, starts: seq<nat>)
  {
    && (forall x :: x in starts ==> x < |rs| && (rs[x].phase.Running? || rs[x].phase.Settled?))
    && (forall a: nat, b: nat :: a < b < |starts| && SameName(rs, starts[a], starts[b]) ==> starts[a] < starts[b])
  }

  ghost predicate QueuesRight(rs: seq<Request>, entered: nat)
  {
    entered <= |rs| && forall k: nat :: k < |rs| ==> Queued(rs, entered, k)
  }

  ghost predicate Inv(s: Lanes)
  {
    && QueuesRight(s.requests, s.entered)
    && TailsRight(s.requests, s.entered, s.tails)
    && Logged(s.requests, s.starts)
  }

  // ---------- One request changes ----------

  /** Requests are added or move on; names never change, and what is over stays over. */
  ghost predicate Continues(rs: seq<Request>, ts: seq<Request>)
  {
    && |rs| <= |ts|
    && (forall i: nat {:trigger ts[i]} :: i < |rs| ==> ts[i].name == rs[i].name)
    && (forall i: nat {:trigger Over(ts, i)} :: Over(rs, i) ==> Over(ts, i))
  }

  lemma ClearContinues(rs: seq<Request>, ts: seq<Request>, k: nat)
    requires Continues(rs, ts) && k < |rs|
    ensures Clear(rs, k) ==> Clear(ts, k)
    ensures forall prev :: Follows(rs, k, prev) ==> Follows(ts, k, prev)
  {
    assert forall i: nat {:trigger SameName(ts, i, k)} :: i < k ==> SameName(ts, i, k) == SameName(rs, i, k);
  }

  lemma TailContinues(rs: seq<Request>, ts: seq<Request>, entered: nat, tails: map<string, nat>, name: string)
    requires Continues(rs, ts) && entered <= |rs| && TailRight(rs, entered, tails, name)
    ensures TailRight(ts, entered, tails, name)
  {
    assert forall i: nat {:trigger Joined(ts, entered, name, i)} ::
      Joined(ts, entered, name, i) == Joined(rs, entered, name, i);
  }

  lemma QueuedContinues(rs: seq<Request>, ts: seq<Request>, entered: nat, later: nat, k: nat)
    requires Continues(rs, ts) && k < |rs| && Queued(rs, entered, k) && entered <= later
    requires ts[k].phase == rs[k].phase && (rs[k].phase.Asked? ==> k >= later)
    ensures Queued(ts, later, k)
  {
    ClearContinues(rs, ts, k);
  }

  lemma UpdateContinues(rs: seq<Request>, k: nat, r: Request)
    requires k < |rs| && r.name == rs[k].name && (rs[k].phase.Settled? ==> r.phase.Settled?)
    ensures Continues(rs, rs[k := r])
  {
  }

  /** The request under k moves to a phase that fits; everything else keeps its place. */
  lemma UpdateKeepsQueues(s: Lanes, k: nat, r: Request)
    requires Inv(s) && k < |s.requests| && r.name == s.requests[k].name
    requires s.requests[k].phase.Settled? ==> r.phase.Settled?
    requires r.phase == s.requests[k].phase ||
      ((r.phase.Locking? || r.phase.Running? || r.phase.Settled?) && k < s.entered && Clear(s.requests, k))
    ensures QueuesRight(s.requests[k := r], s.entered)
    ensures TailsRight(s.requests[k := r], s.entered, s.tails)
  {
    var rs, ts := s.requests, s.requests[k := r];
    UpdateContinues(rs, k, r);
    forall i: nat | i < |ts|
      ensures Queued(ts, s.entered, i)
    {
      if ts[i].phase == rs[i].phase {
        QueuedContinues(rs, ts, s.entered, s.entered, i);
      } else {
        ClearContinues(rs, ts, i);
      }
    }
    forall name
      ensures TailRight(ts, s.entered, s.tails, name)
    {
      TailContinues(rs, ts, s.entered, s.tails, name);
    }
  }

  lemma LogContinues(rs: seq<Request>, ts: seq<Request>, starts: seq<nat>)
    requires Continues(rs, ts) && Logged(rs, starts)
    requires forall x :: x in starts ==> x < |ts| && (ts[x].phase.Running? || ts[x].phase.Settled?)
    ensures Logged(ts, starts)
  {
    forall a: nat, b: nat | a < b < |starts| && SameName(ts, starts[a], starts[b])
      ensures starts[a] < starts[b]
    {
      assert starts[a] in starts && starts[b] in starts;
      assert SameName(rs, starts[a], starts[b]);
    }
  }

  lemma UpdateKeepsInv(s: Lanes, k: nat, r: Request)
    requires Inv(s) && k < |s.requests| && r.name == s.requests[k].name
    requires s.requests[k].phase.Settled? ==> r.phase.Settled?
    requires r.phase == s.requests[k].phase ||
      ((r.phase.Settled? || (r.phase.Locking? && !s.requests[k].phase.Running?)) && k < s.entered && Clear(s.requests, k))
    ensures Inv(s.(requests := s.requests[k := r]))
  {
    UpdateKeepsQueues(s, k, r);
    UpdateContinues(s.requests, k, r);
    LogContinues(s.requests, s.requests[k := r], s.starts);
  }

  /** A request whose body starts is later than every request under its name that started before. */
  lemma StartedKeepsInv(s: Lanes, k: nat)
    requires Inv(s) && k < s.entered && (s.requests[k].phase.Waiting? || s.requests[k].phase.Locking?) && Clear(s.requests, k)
    ensures Inv(Started(s, k))
  {
    var r := s.requests[k].(phase := Running);
    UpdateKeepsQueues(s, k, r);
    UpdateContinues(s.requests, k, r);
    LogContinues(s.requests, s.requests[k := r], s.starts);
    var rs, starts := s.requests, s.starts + [k];
    forall a: nat | a < |s.starts| && SameName(rs, s.starts[a], k)
      ensures s.starts[a] < k
    {
      assert s.starts[a] in s.starts;
      assert Queued(rs, s.entered, s.starts[a]);
      assert s.starts[a] > k ==> SameName(rs, k, s.starts[a]) && Over(rs, k);
    }
    forall a: nat, b: nat | a < b < |starts| && SameName(rs[k := r], starts[a], starts[b])
      ensures starts[a] < starts[b]
    {
      if b == |s.starts| {
        assert s.starts[a] in s.starts && SameName(rs, s.starts[a], k);
      }
    }
  }

  /** When its predecessor has settled, everything before a request under its name has. */
  lemma TurnIsClear(s: Lanes, k: nat)
    requires Inv(s) && k < |s.requests| && s.requests[k].phase.Waiting? && IsSettled(s, s.requests[k].phase.prev)
    ensures k < s.entered && Clear(s.requests, k)
  {
    assert Queued(s.requests, s.entered, k);
    match s.requests[k].phase.prev {
      case None =>
      case Some(j) =>
        assert Queued(s.requests, s.entered, j);
        assert forall i: nat :: i < k && SameName(s.requests, i, k) ==> i == j || SameName(s.requests, i, j);
    }
  }

  // ---------- The other steps ----------

  lemma AskKeepsInv(s: Lanes, name: string)
    requires Inv(s)
    ensures Inv(s.(requests := s.requests + [Request(name, Asked, false)]))
  {
    var rs, ts := s.requests, s.requests + [Request(name, Asked, false)];
    forall i: nat | i < |ts|
      ensures Queued(ts, s.entered, i)
    {
      if i < |rs| {
        QueuedContinues(rs, ts, s.entered, s.entered, i);
      }
    }
    forall n
      ensures TailRight(ts, s.entered, s.tails, n)
    {
      TailContinues(rs, ts, s.entered, s.tails, n);
    }
    LogContinues(rs, ts, s.starts);
  }

  lemma EnterKeepsTails(s: Lanes, name: string)
    requires Inv(s) && Possible(s, Enter)
    ensures var t := Step(s, Enter); TailRight(t.requests, t.entered, t.tails, name)
  {
    var t := Step(s, Enter);
    assert TailRight(s.requests, s.entered, s.tails, name);
    assert forall i: nat {:trigger Joined(t.requests, t.entered, name, i)} ::
      Joined(t.requests, t.entered, name, i) ==> i == s.entered || Joined(s.requests, s.entered, name, i);
    assert forall i: nat {:trigger Joined(s.requests, s.entered, name, i)} ::
      Joined(s.requests, s.entered, name, i) ==> Joined(t.requests, t.entered, name, i);
    assert forall i: nat :: Over(s.requests, i) ==> Over(t.requests, i);
  }

  lemma EnterFollows(s: Lanes)
    requires Inv(s) && Possible(s, Enter)
    ensures Follows(s.requests, s.entered, Step(s, Enter).requests[s.entered].phase.prev)
  {
    var name := s.requests[s.entered].name;
    assert TailRight(s.requests, s.entered, s.tails, name);
    assert forall i: nat {:trigger SameName(s.requests, i, s.entered)} ::
      i < s.entered && SameName(s.requests, i, s.entered) ==> Joined(s.requests, s.entered, name, i);
  }

  lemma EnterKeepsInv(s: Lanes)
    requires Inv(s) && Possible(s, Enter)
    ensures Inv(Step(s, Enter))
  {
    var t := Step(s, Enter);
    var rs, ts, k := s.requests, t.requests, s.entered;
    UpdateContinues(rs, k, ts[k]);
    EnterFollows(s);
    ClearContinues(rs, ts, k);
    forall i: nat | i < |ts|
      ensures Queued(ts, t.entered, i)
    {
      assert Queued(rs, s.entered, i);
      if i != k {
        QueuedContinues(rs, ts, s.entered, t.entered, i);
      }
    }
    forall name
      ensures TailRight(ts, t.entered, t.tails, name)
    {
      EnterKeepsTails(s, name);
    }
    LogContinues(rs, ts, s.starts);
  }

  lemma ForgetKeepsInv(s: Lanes, k: nat)
    requires Inv(s) && Possible(s, Forget(k))
    ensures Inv(Step(s, Forget(k)))
  {
    var t := Step(s, Forget(k));
    assert Queued(s.requests, s.entered, k);
    forall name
      ensures TailRight(s.requests, s.entered, t.tails, name)
    {
      assert TailRight(s.requests, s.entered, s.tails, name);
      if name in s.tails && name !in t.tails {
        forall i: nat | Joined(s.requests, s.entered, name, i)
          ensures Over(s.requests, i)
        {
          assert i == k || SameName(s.requests, i, k);
        }
      }
    }
  }

  lemma StepKeepsInv(s: Lanes, e: Event)
    requires Inv(s) && Possible(s, e)
    ensures Inv(Step(s, e))
  {
    match e
    case Ask(name, hasBudget) => AskKeepsInv(s, name);
    case Enter => EnterKeepsInv(s);
    case Turn(k, webLocks) =>
      TurnIsClear(s, k);
      UpdateKeepsInv(s, k, s.requests[k].(phase := if MayRun(s, k) then Locking else Settled));
      StartedKeepsInv(s, k);
    case Granted(k) =>
      assert Queued(s.requests, s.entered, k);
      UpdateKeepsInv(s, k, s.requests[k].(phase := Settled));
      StartedKeepsInv(s, k);
    case Refused(k) =>
      assert Queued(s.requests, s.entered, k);
      UpdateKeepsInv(s, k, s.requests[k].(phase := Settled));
    case Finish(k) =>
      assert Queued(s.requests, s.entered, k);
      UpdateKeepsInv(s, k, s.requests[k].(phase := Settled));
    case Expire(k) => UpdateKeepsInv(s, k, s.requests[k].(aborted := true));
    case Poison(_) =>
    case Forget(k) => ForgetKeepsInv(s, k);
  }

  lemma {:induction false} RunKeepsInv(s: Lanes, events: seq<Event>)
    requires Inv(s) && Legal(s, events)
    ensures Inv(After(s, events))
    decreases |events|
  {
    if events != [] {
      StepKeepsInv(s, events[0]);
      RunKeepsInv(Step(s, events[0]), events[1..]);
    }
  }

  lemma ReachedInv(events: seq<Event>)
    requires Legal(NO_LANES, events)
    ensures Inv(After(NO_LANES, events))
  {
    assert Inv(NO_LANES);
    RunKeepsInv(NO_LANES, events);
  }

  // ---------- What every run keeps ----------

  /** At most one body under a name is executing, detached work after a timeout included. */
  lemma OneBodyAtATime(events: seq<Event>, i: nat, k: nat)
    requires Legal(NO_LANES, events)
    requires var s := After(NO_LANES, events); In(s, i, Running) && In(s, k, Running) && SameName(s.requests, i, k)
    ensures i == k
  {
    ReachedInv(events);
    var s := After(NO_LANES, events);
    assert Queued(s.requests, s.entered, i) && Queued(s.requests, s.entered, k);
    assert i < k ==> Over(s.requests, i);
    assert k < i ==> SameName(s.requests, k, i) && Over(s.requests, k);
  }

  /** A body is executing only for the head of its queue: every earlier request under its name is over. */
  lemma OnlyTheHeadRuns(events: seq<Event>, i: nat, k: nat)
    requires Legal(NO_LANES, events) && In(After(NO_LANES, events), k, Running)
    requires i < k && SameName(After(NO_LANES, events).requests, i, k)
    ensures In(After(NO_LANES, events), i, Settled)
  {
    ReachedInv(events);
    var s := After(NO_LANES, events);
    assert Queued(s.requests, s.entered, k);
    assert Over(s.requests, i);
  }

  /** Bodies under a name start in request order, and each at most once. */
  lemma BodiesStartInRequestOrder(events: seq<Event>, a: nat, b: nat)
    requires Legal(NO_LANES, events) && a < b < |After(NO_LANES, events).starts|
    requires var s := After(NO_LANES, events); SameName(s.requests, s.starts[a], s.starts[b])
    ensures var s := After(NO_LANES, events); s.starts[a] < s.starts[b]
  {
    ReachedInv(events);
  }

  /** A poisoned name stays poisoned, and what starts from then on is under other names and unexpired. */
  lemma StepStarts(s: Lanes, e: Event)
    requires Possible(s, e)
    ensures s.poisoned <= Step(s, e).poisoned
    ensures |s.requests| <= |Step(s, e).requests|
    ensures forall i: nat :: i < |s.requests| ==> Step(s, e).requests[i].name == s.requests[i].name
    ensures Step(s, e).starts == s.starts ||
      exists k: nat :: k < |s.requests| && MayRun(s, k) && Step(s, e).starts == s.starts + [k]
  {
    if e.Turn? || e.Granted? {
      assert MayRun(s, e.k) ==> Step(s, e).starts == s.starts || Step(s, e).starts == s.starts + [e.k];
    }
  }

  /** Once a name is poisoned no further body under it ever starts. */
  lemma {:induction false} NoneStartsAfterPoison(s: Lanes, events: seq<Event>)
    requires Legal(s, events)
    ensures var t := After(s, events);
      && s.poisoned <= t.poisoned && s.starts <= t.starts && |s.requests| <= |t.requests|
      && (forall i: nat :: i < |s.requests| ==> t.requests[i].name == s.requests[i].name)
      && (forall a: nat :: |s.starts| <= a < |t.starts| ==>
            t.starts[a] < |t.requests| && t.requests[t.starts[a]].name !in s.poisoned)
    decreases |events|
  {
    if events != [] {
      StepStarts(s, events[0]);
      NoneStartsAfterPoison(Step(s, events[0]), events[1..]);
    }
  }

  /**
   * No request is stranded: the earliest unsettled one under a name can always move, by
   * joining its queue (after those asked before it), taking its turn, or finishing.
   */
  lemma EarliestCanMove(events: seq<Event>, k: nat)
    requires Legal(NO_LANES, events) && k < |After(NO_LANES, events).requests|
    requires !Over(After(NO_LANES, events).requests, k) && Clear(After(NO_LANES, events).requests, k)
    ensures var s := After(NO_LANES, events);
      match s.requests[k].phase
      case Asked => Possible(s, Enter)
      case Waiting(_) => Possible(s, Turn(k, true)) && Possible(s, Turn(k, false))
      case Locking => Possible(s, Granted(k))
      case Running => Possible(s, Finish(k))
      case Settled => false
  {
    ReachedInv(events);
    var s := After(NO_LANES, events);
    assert Queued(s.requests, s.entered, k);
    if s.requests[k].phase.Asked? {
      assert Queued(s.requests, s.entered, s.entered);
    }
  }

  // ---------- The module's own state, updated in place ----------

  class LockTable {
    var tails: map<string, nat>
    var poisoned: set<string>
    var requests: seq<Request>
    var entered: nat
    var starts: seq<nat>

    function View(): Lanes
      reads this
    {
      Lanes(tails, poisoned, requests, entered, starts)
    }

    constructor ()
      ensures View() == NO_LANES
    {
      tails, poisoned, requests, entered, starts := map[], {}, [], 0, [];
    }

    /** Makes a request; a poisoned name refuses it, and a request with no time budget poisons the name. */
    method WithPersistLock(name: string, hasBudget: bool) returns (accepted: bool)
      modifies this
      ensures View() == Step(old(View()), Ask(name, hasBudget))
      ensures accepted <==> name !in old(poisoned) && hasBudget
    {
      if name in poisoned {
        return false;
      }
      if !hasBudget {
        poisoned := poisoned + {name};
        return false;
      }
      requests := requests + [Request(name, Asked, false)];
      return true;
    }

    method WithProcessLock()
      requires Possible(View(), Enter)
      modifies this
      ensures View() == Step(old(View()), Enter)
    {
      var name := requests[entered].name;
      var prev := if name in tails then Some(tails[name]) else None;
      SetPhase(entered, Waiting(prev));
      tails := tails[name := entered];
      entered := entered + 1;
    }

    method SetPhase(k: nat, phase: Phase)
      requires k < |requests|
      modifies this`requests
      ensures View() == Moved(old(View()), k, phase)
    {
      requests := requests[k := requests[k].(phase := phase)];
    }

    /** The body starts unless the name is poisoned or the request has expired by now. */
    method RunOrSettle(k: nat)
      requires k < |requests|
      modifies this
      ensures View() == if MayRun(old(View()), k) then Started(old(View()), k) else Moved(old(View()), k, Settled)
    {
      if requests[k].name in poisoned || requests[k].aborted {
        SetPhase(k, Settled);
      } else {
        SetPhase(k, Running);
        starts := starts + [k];
      }
    }

    method TakeTurn(k: nat, webLocks: bool)
      requires Possible(View(), Turn(k, webLocks))
      modifies this
      ensures View() == Step(old(View()), Turn(k, webLocks))
    {
      if webLocks && requests[k].name !in poisoned && !requests[k].aborted {
        SetPhase(k, Locking);
      } else {
        RunOrSettle(k);
      }
    }

    method LockGranted(k: nat)
      requires Possible(View(), Granted(k))
      modifies this
      ensures View() == Step(old(View()), Granted(k))
    {
      RunOrSettle(k);
    }

    method Settle(k: nat)
      requires Possible(View(), Finish(k)) || Possible(View(), Refused(k))
      modifies this
      ensures View() == Moved(old(View()), k, Settled)
    {
      SetPhase(k, Settled);
    }

    method TimerFired(k: nat)
      requires Possible(View(), Expire(k))
      modifies this
      ensures View() == Step(old(View()), Expire(k))
    {
      requests := requests[k := requests[k].(aborted := true)];
    }

    method CaughtTimeout(k: nat)
      requires Possible(View(), Poison(k))
      modifies this
      ensures View() == Step(old(View()), Poison(k))
    {
      poisoned := poisoned + {requests[k].name};
    }

    /** Only the latest request under a name may forget its tail. */
    method TailSettled(k: nat)
      requires Possible(View(), Forget(k))
      modifies this
      ensures View() == Step(old(View()), Forget(k))
    {
      var name := requests[k].name;
      if name in tails && tails[name] == k {
        tails := tails - {name};
      }
    }
  }
}
