/**
 * The replica journal of client/src/collab/journal.ts.
 *
 * A replica is a set of operation ids, and importing is union.  What a restart can
 * rebuild is the stored snapshot together with every pending mutation.
 */
module Journal {
  import opened Wrappers

  /** An operation of the replicated document, known only by its identity. */
  type Op = nat

  datatype MutationKind = Update | Snapshot

  /** A retry-stable mutation: its payload is exactly the operations it carries. */
  datatype Mutation = Mutation(id: nat, kind: MutationKind, ops: set<Op>)

  datatype Record = Record(
    role: nat,
    snapshot: set<Op>,
    pending: seq<Mutation>,
    acked: Option<set<Op>>,
    revision: nat,
    prunedAt: nat)

  datatype JournalError = IdReused

  function OpsOf(pending: seq<Mutation>): (r: set<Op>)
    ensures forall m :: m in pending ==> m.ops <= r
  {
    if pending == [] then {} else OpsOf(pending[1..]) + pending[0].ops
  }

  /** Everything a restart rebuilds from the stored record. */
  function Recoverable(record: Record): set<Op>
  {
    record.snapshot + OpsOf(record.pending)
  }

  function Holds(stored: Option<Record>): set<Op>
  {
    match stored case None => {} case Some(record) => Recoverable(record)
  }

  lemma {:induction false} OpsWithin(pending: seq<Mutation>, bound: set<Op>)
    requires forall m :: m in pending ==> m.ops <= bound
    ensures OpsOf(pending) <= bound
  {
    if pending != [] {
      assert pending[0] in pending;
      OpsWithin(pending[1..], bound);
    }
  }

  function FindById(pending: seq<Mutation>, id: nat): (r: Option<Mutation>)
    ensures r.Some? ==> r.value in pending && r.value.id == id
    ensures r.None? ==> forall m :: m in pending ==> m.id != id
  {
    if pending == [] then None
    else if pending[0].id == id then Some(pending[0])
    else FindById(pending[1..], id)
  }

  /** The retry list without one id. */
  function Without(pending: seq<Mutation>, id: nat): (r: seq<Mutation>)
    ensures forall m :: m in r <==> m in pending && m.id != id
  {
    if pending == [] then []
    else (if pending[0].id == id then [] else [pending[0]]) + Without(pending[1..], id)
  }

  // ---------- The three record updates ----------

  function AppendMutation(record: Record, mutation: Mutation): Result<Record, JournalError>
  {
    if mutation.ops == {} then Ok(record)
    else
      match FindById(record.pending, mutation.id)
      case Some(existing) => if existing != mutation then Err(IdReused) else Ok(record)
      case None => Ok(record.(pending := record.pending + [mutation]))
  }

  function Checkpointed(record: Record, snapshot: set<Op>): Record
  {
    record.(snapshot := snapshot)
  }

  function Acknowledged(record: Record, id: nat, snapshot: set<Op>, acked: set<Op>, revision: nat): Record
  {
    record.(snapshot := snapshot, pending := Without(record.pending, id), acked := Some(acked), revision := revision)
  }

  /** A stored append is recoverable from then on, and an append loses nothing. */
  lemma AppendKeeps(record: Record, mutation: Mutation)
    ensures match AppendMutation(record, mutation)
      case Ok(next) => Recoverable(record) <= Recoverable(next) && mutation.ops <= Recoverable(next)
      case Err(_) => exists other :: other in record.pending && other.id == mutation.id && other != mutation
  {
    match AppendMutation(record, mutation)
    case Err(_) =>
      var existing := FindById(record.pending, mutation.id).value;
      assert existing in record.pending;
    case Ok(next) =>
      if FindById(record.pending, mutation.id).None? && mutation.ops != {} {
        assert mutation in next.pending;
        OpsMonotone(record.pending, next.pending);
      }
  }

  lemma OpsMonotone(a: seq<Mutation>, b: seq<Mutation>)
    requires forall m :: m in a ==> m in b
    ensures OpsOf(a) <= OpsOf(b)
  {
    OpsWithin(a, OpsOf(b));
  }

  /**
   * A checkpoint or an acknowledgement loses nothing when the exported snapshot covers
   * what was recoverable before: a retry payload is dropped only in a write whose
   * snapshot already contains it.
   */
  lemma SnapshotKeeps(record: Record, snapshot: set<Op>, id: nat, acked: set<Op>, revision: nat)
    requires Recoverable(record) <= snapshot
    ensures Recoverable(Checkpointed(record, snapshot)) == snapshot
    ensures Recoverable(Acknowledged(record, id, snapshot, acked, revision)) == snapshot
  {
    OpsMonotone(Without(record.pending, id), record.pending);
  }

  // ---------- The store, updated in place under the lock ----------

  /** One document's journal entry.  Each method is one atomic read-modify-write. */
  class Store {
    var stored: Option<Record>

    constructor ()
      ensures stored == None
    {
      stored := None;
    }

    function Current(fallback: Record): Record
      reads this
    {
      match stored case None => fallback case Some(record) => record
    }

    method AppendPending(fallback: Record, mutation: Mutation) returns (r: Result<Record, JournalError>)
      modifies this
      ensures r == AppendMutation(old(Current(fallback)), mutation)
      ensures stored == match r case Ok(record) => Some(record) case Err(_) => old(stored)
      ensures r.Ok? ==> old(Holds(stored)) <= Holds(stored) && mutation.ops <= Holds(stored)
    {
      r := AppendMutation(Current(fallback), mutation);
      AppendKeeps(Current(fallback), mutation);
      if r.Ok? {
        stored := Some(r.value);
      }
    }

    method Checkpoint(fallback: Record, snapshot: set<Op>) returns (written: Record)
      modifies this
      ensures written == Checkpointed(old(Current(fallback)), snapshot) && stored == Some(written)
      ensures old(Holds(stored)) <= snapshot ==> old(Holds(stored)) <= Holds(stored)
    {
      written := Current(fallback).(snapshot := snapshot);
      stored := Some(written);
    }

    method Acknowledge(fallback: Record, id: nat, snapshot: set<Op>, acked: set<Op>, revision: nat) returns (written: Record)
      modifies this
      ensures written == Acknowledged(old(Current(fallback)), id, snapshot, acked, revision) && stored == Some(written)
      ensures old(Holds(stored)) <= snapshot ==> old(Holds(stored)) <= Holds(stored)
    {
      var current := Current(fallback);
      written := current.(
        snapshot := snapshot,
        pending := Without(current.pending, id),
        acked := Some(acked),
        revision := revision);
      stored := Some(written);
    }
  }
}
