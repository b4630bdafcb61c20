/** What the mutation pipeline promises over whole runs. */
module Guarantees {
  import opened Wrappers
  import opened Journal
  import opened EngineSession
  import opened Pipeline
  import opened Durability

  // ---------- Every run ----------

  lemma {:induction false} RunKeepsInv(s: State, events: seq<Event>)
    requires Inv(s) && Legal(s, events)
    ensures Inv(After(s, events))
    decreases |events|
  {
    if events != [] {
      StepKeepsInv(s, events[0]);
      RunKeepsInv(Step(s, events[0]), events[1..]);
    }
  }

  /** Nothing recoverable, journaled, named or committed is ever taken back. */
  ghost predicate Grows(s: State, t: State)
  {
    && Holds(s.stored) <= Holds(t.stored)
    && s.journaled <= t.journaled
    && (forall id :: id in s.registry ==> id in t.registry && t.registry[id] == s.registry[id])
    && s.server.committed <= t.server.committed
    && s.server.receipts.Keys <= t.server.receipts.Keys
  }

  lemma WriteGrows(s: State)
    requires Inv(s) && Possible(s, JobWritten)
    ensures Grows(s, Step(s, JobWritten))
  {
    WriteKeepsInv(s);
    WriteKeeps(s, s.lane.queue[0].job, Written(s.stored, s.lane.queue[0].job, s.lane.started.value).value);
  }

  lemma ReportGrows(s: State, k: nat, reply: MissingReply)
    requires Inv(s) && Possible(s, JobReported(k, reply)) && Honest(s, JobReported(k, reply))
    ensures Grows(s, Step(s, JobReported(k, reply)))
  {
    var p, report := s.page.value, s.lane.reports[k];
    assert report in s.lane.reports;
    JobDoneSound(s, p, report, reply);
  }

  lemma StepGrows(s: State, e: Event)
    requires Inv(s) && Possible(s, e) && Honest(s, e) && OpenSucceeds(e)
    ensures Grows(s, Step(s, e))
  {
    match e
    case Page(input) =>
      InputSound(s, s.page.value, input);
    case JobWritten => WriteGrows(s);
    case JobReported(k, reply) => ReportGrows(s, k, reply);
    case _ =>
  }

  lemma {:induction false} RunGrows(s: State, events: seq<Event>)
    requires Inv(s) && Legal(s, events)
    ensures Grows(s, After(s, events))
    decreases |events|
  {
    if events != [] {
      StepKeepsInv(s, events[0]);
      StepGrows(s, events[0]);
      RunGrows(Step(s, events[0]), events[1..]);
    }
  }

  // ---------- The promises ----------

  /**
   * In every reachable state of a service session where the page reports itself durable,
   * nothing is pending and everything in the replica is committed; in any session every
   * edit made on the page is then recoverable from the journal.
   */
  lemma DurableIsCommitted(access: bool, events: seq<Event>)
    requires Legal(Initial(access), events)
    ensures var s := After(Initial(access), events);
      s.page.Some? && IsDurable(s.page.value) ==>
        && s.page.value.pending == []
        && (access ==> s.page.value.replica <= s.server.committed)
        && (forall id :: id in s.mine ==> id in s.registry && s.registry[id].ops <= Holds(s.stored))
  {
    RunKeepsInv(Initial(access), events);
    RunAccess(Initial(access), events);
  }

  lemma {:induction false} RunAccess(s: State, events: seq<Event>)
    ensures After(s, events).access == s.access
    decreases |events|
  {
    if events != [] && Possible(s, events[0]) {
      RunAccess(Step(s, events[0]), events[1..]);
    }
  }

  /**
   * From any reachable state on, what the journal can rebuild never shrinks, and it
   * includes every mutation whose append was written.
   */
  lemma NothingStoredIsLost(access: bool, before: seq<Event>, after: seq<Event>)
    requires Legal(Initial(access), before) && Legal(After(Initial(access), before), after)
    ensures var s, t := After(Initial(access), before), After(After(Initial(access), before), after);
      && Holds(s.stored) <= Holds(t.stored)
      && (forall id :: id in s.journaled ==>
            && id in s.registry && id in t.registry && t.registry[id] == s.registry[id]
            && t.registry[id].ops <= Holds(t.stored))
  {
    RunKeepsInv(Initial(access), before);
    RunKeepsInv(After(Initial(access), before), after);
    RunGrows(After(Initial(access), before), after);
  }

  /** In a service session a journaled mutation stays in the stored retry list until the server has committed it. */
  lemma JournaledUntilCommitted(events: seq<Event>, id: nat)
    requires Legal(Initial(true), events) && id in After(Initial(true), events).journaled
    ensures var s := After(Initial(true), events);
      && id in s.registry
      && (if id in s.server.receipts then s.registry[id].ops <= s.server.committed
          else s.stored.Some? && s.registry[id] in s.stored.value.pending)
  {
    RunKeepsInv(Initial(true), events);
    RunAccess(Initial(true), events);
  }

  /**
   * A retry payload leaves the stored record only in a write whose snapshot contains it,
   * and with a service only after the server has committed it.
   */
  lemma RetryDroppedOnlyWhenCovered(access: bool, events: seq<Event>, e: Event, m: Mutation)
    requires Legal(Initial(access), events)
    requires var s := After(Initial(access), events);
      && Possible(s, e) && Honest(s, e) && OpenSucceeds(e)
      && s.stored.Some? && m in s.stored.value.pending
    ensures var s := After(Initial(access), events);
      var t := Step(s, e);
      && t.stored.Some?
      && (m in t.stored.value.pending ||
           (m.ops <= t.stored.value.snapshot && (access ==> m.id in s.server.receipts)))
  {
    RunKeepsInv(Initial(access), events);
    RunAccess(Initial(access), events);
    var s := After(Initial(access), events);
    if e.JobWritten? {
      WriteKeepsInv(s);
      var job := s.lane.queue[0].job;
      assert s.lane.queue[0] in s.lane.queue && JobKnown(s, job);
      assert m.ops <= OpsOf(s.stored.value.pending);
      WriteKeeps(s, job, Written(s.stored, job, s.lane.started.value).value);
    }
  }

  /** On the page too: with a service, a mutation leaves the retry list only once the server has committed it. */
  lemma PageForgetsOnlyCommitted(events: seq<Event>, e: Event, m: Mutation)
    requires Legal(Initial(true), events)
    requires var s := After(Initial(true), events);
      && Possible(s, e) && Honest(s, e) && OpenSucceeds(e)
      && s.page.Some? && m in s.page.value.pending
    ensures var s, t := After(Initial(true), events), Step(After(Initial(true), events), e);
      t.page.Some? && m !in t.page.value.pending ==> m.id in s.server.receipts
  {
    RunKeepsInv(Initial(true), events);
    RunAccess(Initial(true), events);
    var s := After(Initial(true), events);
    match e {
      case Page(input) => InputSound(s, s.page.value, input);
      case JobReported(k, reply) =>
        assert s.lane.reports[k] in s.lane.reports;
        JobDoneSound(s, s.page.value, s.lane.reports[k], reply);
      case _ =>
    }
  }

  /** An id means one mutation forever: on the page, in the journal, on the wire and at the server. */
  lemma IdsAreStable(access: bool, events: seq<Event>, m: Mutation, n: Mutation)
    requires Legal(Initial(access), events)
    requires var s := After(Initial(access), events);
      && (m in s.sent || (s.page.Some? && m in s.page.value.pending) || (s.stored.Some? && m in s.stored.value.pending))
      && (n in s.sent || (s.page.Some? && n in s.page.value.pending) || (s.stored.Some? && n in s.stored.value.pending))
    ensures m.id == n.id ==> m == n
    ensures var s := After(Initial(access), events);
      m.id in s.server.receipts ==> s.server.receipts[m.id] == m.ops
  {
    RunKeepsInv(Initial(access), events);
  }

  /** A crash at any moment loses no journaled mutation: the next page opens with all of them. */
  lemma RestartRecovers(access: bool, events: seq<Event>, role: nat)
    requires Legal(Initial(access), events) && After(Initial(access), events).page.Some?
    ensures var s := After(Initial(access), events);
      var t := After(s, [Crashed, Opened(true, role)]);
      && Legal(s, [Crashed, Opened(true, role)])
      && t.page.Some? && t.page.value.replica == Holds(s.stored)
      && (forall id :: id in s.journaled ==> id in s.registry && s.registry[id].ops <= t.page.value.replica)
      && (access ==> forall id :: id in s.journaled && id !in s.server.receipts ==> s.registry[id] in t.page.value.pending)
  {
    RunKeepsInv(Initial(access), events);
    RunAccess(Initial(access), events);
    var s := After(Initial(access), events);
    var down := Step(s, Crashed);
    assert [Crashed, Opened(true, role)][1..] == [Opened(true, role)];
    assert [Opened(true, role)][1..] == [];
    assert Legal(Step(down, Opened(true, role)), []);
    assert Legal(down, [Opened(true, role)]);
    assert After(down, [Opened(true, role)]) == Step(down, Opened(true, role));
  }
}
