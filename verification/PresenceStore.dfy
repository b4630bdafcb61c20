/**
 * The presence store of client/src/collab/presence-store.ts: per-instance sequence
 * filtering over a channel that loses, repeats and reorders frames.
 */
module PresenceStore {
  import opened Sequences
  import opened Wrappers
  import opened PresenceCodec
  import opened PresenceBuffers

  type Key = seq<byte>
  type Instance = seq<byte>

  const MAX_BOOTSTRAP_AGE_MS := 30000

  /** What is held under a key.  A tombstone has no value. */
  datatype Held = Held(json: seq<byte>, receivedAt: int, instance: Instance, deleted: bool, local: bool)

  /** entries in insertion order `order`, as a JavaScript Map keeps them. */
  datatype Store = Store(
    entries: map<Key, Held>,
    order: seq<Key>,
    greatest: map<Instance, nat>,
    instance: Instance,
    sequence: nat)

  function NewStore(instance: Instance): Store { Store(map[], [], map[], instance, 0) }

  // ---------- Operations ----------

  function Put(s: Store, key: Key, held: Held): Store
  {
    s.(entries := s.entries[key := held], order := if key in s.entries then s.order else s.order + [key])
  }

  function Greatest(s: Store, instance: Instance): nat
  {
    if instance in s.greatest then s.greatest[instance] else 0
  }

  /** A live entry of another instance shields its key from live news, and only from live news. */
  predicate Shielded(s: Store, instance: Instance, incoming: Entry)
  {
    && incoming.Live? && incoming.key in s.entries
    && !s.entries[incoming.key].deleted && s.entries[incoming.key].instance != instance
  }

  predicate Ignored(s: Store, instance: Instance, incoming: Entry)
  {
    Shielded(s, instance, incoming) || (incoming.Live? && incoming.age > MAX_BOOTSTRAP_AGE_MS)
  }

  function HeldFrom(instance: Instance, incoming: Entry, now: int): Held
  {
    match incoming
    case Deleted(_) => Held([], now, instance, true, false)
    case Live(_, _, json) => Held(json, now, instance, false, false)
  }

  function ApplyEntry(s: Store, instance: Instance, incoming: Entry, now: int): Store
  {
    if Ignored(s, instance, incoming) then s else Put(s, incoming.key, HeldFrom(instance, incoming, now))
  }

  function ApplyEntries(s: Store, instance: Instance, incoming: seq<Entry>, now: int): Store
    decreases |incoming|
  {
    if incoming == [] then s
    else ApplyEntries(ApplyEntry(s, instance, incoming[0], now), instance, incoming[1..], now)
  }

  function Apply(s: Store, f: Frame, now: int): Store
  {
    if f.sequence <= Greatest(s, f.instance) then s
    else
      var t := ApplyEntries(s, f.instance, f.entries, now);
      t.(greatest := t.greatest[f.instance := f.sequence])
  }

  /** A local write is refused when its key or value is out of bounds, or a new key finds 256 held. */
  predicate SetRefused(s: Store, key: Key, json: seq<byte>)
  {
    || (key !in s.entries && |s.entries| >= MAX_PRESENCE_ENTRIES)
    || |json| > MAX_VALUE_BYTES || key == [] || |key| > MAX_KEY_BYTES
  }

  function SetLocal(s: Store, key: Key, json: seq<byte>, now: int): Store
  {
    if SetRefused(s, key, json) then s else Put(s, key, Held(json, now, s.instance, false, true))
  }

  function DeleteLocal(s: Store, key: Key, now: int): Store
  {
    if key in s.entries && !s.entries[key].deleted then Put(s, key, Held([], now, s.instance, true, true)) else s
  }

  predicate Stale(held: Held, now: int, ttl: int) { now - held.receivedAt > ttl }

  function KeepFresh(order: seq<Key>, entries: map<Key, Held>, now: int, ttl: int): seq<Key>
  {
    if order == [] then []
    else
      (if order[0] in entries && Stale(entries[order[0]], now, ttl) then [] else [order[0]])
        + KeepFresh(order[1..], entries, now, ttl)
  }

  function Sweep(s: Store, now: int, ttl: int): Store
  {
    s.(entries := map k | k in s.entries && !Stale(s.entries[k], now, ttl) :: s.entries[k],
       order := KeepFresh(s.order, s.entries, now, ttl))
  }

  function BeginLifecycle(s: Store, instance: Instance): Store
  {
    s.(instance := instance, sequence := 0,
       entries := map k | k in s.entries :: if s.entries[k].local then s.entries[k].(instance := instance) else s.entries[k])
  }

  function LocalKeys(order: seq<Key>, entries: map<Key, Held>): seq<Key>
  {
    if order == [] then []
    else
      (if order[0] in entries && entries[order[0]].local then [order[0]] else []) + LocalKeys(order[1..], entries)
  }

  function Age(now: int, receivedAt: int): (age: nat)
    ensures age <= MAX_BOOTSTRAP_AGE_MS
  {
    if now - receivedAt < 0 then 0
    else if now - receivedAt > MAX_BOOTSTRAP_AGE_MS then MAX_BOOTSTRAP_AGE_MS
    else now - receivedAt
  }

  function EntryFor(entries: map<Key, Held>, key: Key, now: int): Entry
  {
    if key !in entries || entries[key].deleted then Deleted(key)
    else Live(key, Age(now, entries[key].receivedAt), entries[key].json)
  }

  function EntriesFor(entries: map<Key, Held>, keys: seq<Key>, now: int): seq<Entry>
  {
    if keys == [] then [] else [EntryFor(entries, keys[0], now)] + EntriesFor(entries, keys[1..], now)
  }

  predicate Exhausted(s: Store) { s.sequence >= MAX_SAFE - 1 }

  /** The frame a publication writes: every local key, under the next sequence number. */
  function Published(s: Store, now: int): Frame
  {
    Frame(s.instance, s.sequence + 1, EntriesFor(s.entries, LocalKeys(s.order, s.entries), now))
  }

  // ---------- Runs ----------

  datatype Event =
    | Deliver(frame: Frame, now: int)
    | Set(key: Key, json: seq<byte>, now: int)
    | Delete(key: Key, now: int)
    | Sweeps(now: int, ttl: int)
    | Reconnects(instance: Instance)
    | Publishes

  function Step(s: Store, e: Event): Store
  {
    match e
    case Deliver(f, now) => Apply(s, f, now)
    case Set(key, json, now) => SetLocal(s, key, json, now)
    case Delete(key, now) => DeleteLocal(s, key, now)
    case Sweeps(now, ttl) => Sweep(s, now, ttl)
    case Reconnects(instance) => BeginLifecycle(s, instance)
    case Publishes => if Exhausted(s) then s else s.(sequence := s.sequence + 1)
  }

  function After(s: Store, events: seq<Event>): Store
    decreases |events|
  {
    if events == [] then s else After(Step(s, events[0]), events[1..])
  }

  lemma {:induction false} AfterConcat(s: Store, a: seq<Event>, b: seq<Event>)
    ensures After(s, a + b) == After(After(s, a), b)
    decreases |a|
  {
    if a == [] {
      assert a + b == b;
    } else {
      assert (a + b)[1..] == a[1..] + b && (a + b)[0] == a[0];
      AfterConcat(Step(s, a[0]), a[1..], b);
    }
  }

  // ---------- Replays ----------

  lemma {:induction false} EntriesKeepGreatest(s: Store, instance: Instance, incoming: seq<Entry>, now: int)
    ensures ApplyEntries(s, instance, incoming, now).greatest == s.greatest
    decreases |incoming|
  {
    if incoming != [] {
      EntriesKeepGreatest(ApplyEntry(s, instance, incoming[0], now), instance, incoming[1..], now);
    }
  }

  lemma {:induction false} GreatestNeverFalls(s: Store, events: seq<Event>, instance: Instance)
    ensures Greatest(s, instance) <= Greatest(After(s, events), instance)
    decreases |events|
  {
    if events != [] {
      if events[0].Deliver? {
        EntriesKeepGreatest(s, events[0].frame.instance, events[0].frame.entries, events[0].now);
      }
      GreatestNeverFalls(Step(s, events[0]), events[1..], instance);
    }
  }

  /** Once a frame has been delivered, it and every older frame of its instance change nothing, ever after. */
  lemma ReplayIsNoOp(s: Store, f: Frame, now: int, later: seq<Event>, g: Frame, at: int)
    requires g.instance == f.instance && g.sequence <= f.sequence
    ensures var t := After(s, [Deliver(f, now)] + later);
      Apply(t, g, at) == t
  {
    var t := Apply(s, f, now);
    EntriesKeepGreatest(s, f.instance, f.entries, now);
    assert Greatest(t, f.instance) >= f.sequence;
    assert ([Deliver(f, now)] + later)[1..] == later;
    GreatestNeverFalls(t, later, f.instance);
  }

  // ---------- Convergence ----------

  predicate Distinct(es: seq<Entry>)
  {
    forall i, j :: 0 <= i < j < |es| ==> es[i].key != es[j].key
  }

  predicate Names(es: seq<Entry>, key: Key) { exists e :: e in es && e.key == key }

  /** The held entry says what the frame's entry says. */
  predicate Agrees(held: Held, e: Entry)
  {
    held.deleted == e.Deleted? && (e.Live? ==> held.json == e.json)
  }

  /**
   * What a receiver of the instance may see: of that instance, only frames up to the
   * top one; the top frame's keys are written by no other instance and not locally.
   */
  predicate Permitted(top: Frame, e: Event)
  {
    match e
    case Deliver(f, _) =>
      if f.instance == top.instance then f.sequence < top.sequence || f == top
      else forall x :: x in f.entries ==> !Names(top.entries, x.key)
    case Set(key, _, _) => !Names(top.entries, key)
    case Delete(key, _) => !Names(top.entries, key)
    case _ => true
  }

  /** No key of the top frame is held from elsewhere, and once the top frame is in, all agree with it. */
  ghost predicate Converging(s: Store, top: Frame, kept: bool)
  {
    && Greatest(s, top.instance) <= top.sequence
    && (forall e :: e in top.entries && e.key in s.entries ==>
          s.entries[e.key].instance == top.instance && !s.entries[e.key].local)
    && (Greatest(s, top.instance) == top.sequence ==>
          forall e :: e in top.entries ==>
            (kept ==> e.key in s.entries) && (e.key in s.entries ==> Agrees(s.entries[e.key], e)))
  }

  /** Foreign entries leave the keys of the top frame alone; its own instance's entries stay its own. */
  lemma {:induction false} EntriesElsewhere(s: Store, instance: Instance, incoming: seq<Entry>, now: int, key: Key)
    ensures var t := ApplyEntries(s, instance, incoming, now);
      && (!Names(incoming, key) ==> (key in t.entries <==> key in s.entries) && (key in s.entries ==> t.entries[key] == s.entries[key]))
      && (key in t.entries ==> (key in s.entries && t.entries[key] == s.entries[key])
                               || (t.entries[key].instance == instance && !t.entries[key].local))
    decreases |incoming|
  {
    if incoming != [] {
      EntriesElsewhere(ApplyEntry(s, instance, incoming[0], now), instance, incoming[1..], now, key);
      assert incoming[0] in incoming;
      assert forall e :: e in incoming[1..] ==> e in incoming;
    }
  }

  /** A frame's own entries all take hold when nothing shields their keys. */
  lemma {:induction false} EntriesTakeHold(s: Store, instance: Instance, incoming: seq<Entry>, now: int, e: Entry)
    requires e in incoming && Distinct(incoming)
    requires e.key in s.entries ==> s.entries[e.key].instance == instance
    requires e.Live? ==> e.age <= MAX_BOOTSTRAP_AGE_MS
    ensures var t := ApplyEntries(s, instance, incoming, now);
      e.key in t.entries && Agrees(t.entries[e.key], e)
    decreases |incoming|
  {
    var next := ApplyEntry(s, instance, incoming[0], now);
    if e == incoming[0] {
      assert !Names(incoming[1..], e.key);
      EntriesElsewhere(next, instance, incoming[1..], now, e.key);
    } else {
      assert e in incoming[1..] by {
        var i :| 0 <= i < |incoming| && incoming[i] == e;
        assert incoming[1..][i - 1] == e;
      }
      assert incoming[0].key != e.key;
      EntriesTakeHold(next, instance, incoming[1..], now, e);
    }
  }

  lemma DeliverConverges(s: Store, top: Frame, f: Frame, now: int, kept: bool)
    requires Converging(s, top, kept) && Permitted(top, Deliver(f, now)) && Distinct(top.entries)
    requires forall e :: e in top.entries && e.Live? ==> e.age <= MAX_BOOTSTRAP_AGE_MS
    ensures Converging(Apply(s, f, now), top, kept)
    ensures f == top ==> Greatest(Apply(s, f, now), top.instance) == top.sequence
  {
    if f.sequence > Greatest(s, f.instance) {
      EntriesKeepGreatest(s, f.instance, f.entries, now);
      forall e | e in top.entries
        ensures var t := Apply(s, f, now);
          && (e.key in t.entries ==> t.entries[e.key].instance == top.instance && !t.entries[e.key].local)
          && (f == top ==> e.key in t.entries && Agrees(t.entries[e.key], e))
          && (f.instance != top.instance && e.key in t.entries ==> e.key in s.entries && t.entries[e.key] == s.entries[e.key])
          && (f.instance != top.instance && e.key in s.entries ==> e.key in t.entries)
      {
        EntriesElsewhere(s, f.instance, f.entries, now, e.key);
        if f == top {
          EntriesTakeHold(s, f.instance, f.entries, now, e);
        }
        assert f.instance != top.instance ==> !Names(f.entries, e.key);
      }
    }
  }

  lemma StepConverges(s: Store, top: Frame, e: Event, kept: bool)
    requires Converging(s, top, kept) && Permitted(top, e) && Distinct(top.entries)
    requires forall x :: x in top.entries && x.Live? ==> x.age <= MAX_BOOTSTRAP_AGE_MS
    ensures Converging(Step(s, e), top, kept && !e.Sweeps?)
    ensures e.Deliver? && e.frame == top ==> Greatest(Step(s, e), top.instance) == top.sequence
  {
    match e
    case Deliver(f, now) => DeliverConverges(s, top, f, now, kept);
    case _ =>
  }

  ghost predicate NoSweeps(events: seq<Event>) { forall e :: e in events ==> !e.Sweeps? }

  lemma {:induction false} RunConverges(s: Store, top: Frame, events: seq<Event>, kept: bool)
    requires Converging(s, top, kept) && Distinct(top.entries)
    requires forall e :: e in events ==> Permitted(top, e)
    requires forall x :: x in top.entries && x.Live? ==> x.age <= MAX_BOOTSTRAP_AGE_MS
    ensures Converging(After(s, events), top, kept && NoSweeps(events))
    ensures (exists now :: Deliver(top, now) in events) || Greatest(s, top.instance) == top.sequence ==>
      Greatest(After(s, events), top.instance) == top.sequence
    decreases |events|
  {
    if events != [] {
      var next := Step(s, events[0]);
      assert events[0] in events && events == [events[0]] + events[1..];
      StepConverges(s, top, events[0], kept);
      GreatestNeverFalls(s, [events[0]], top.instance);
      assert After(s, [events[0]]) == next;
      RunConverges(next, top, events[1..], kept && !events[0].Sweeps?);
      assert NoSweeps(events) ==> NoSweeps(events[1..]) && !events[0].Sweeps?;
    }
  }

  /**
   * Receivers converge.  Two stores fed arbitrary duplicated, lost or reordered frames
   * that both include the highest frame of an instance agree on every key in it: both
   * hold what that frame says, unless the key has already been swept there.
   */
  lemma ReceiversConverge(a: Instance, b: Instance, top: Frame, seenByA: seq<Event>, seenByB: seq<Event>, key: Key)
    requires Distinct(top.entries) && Names(top.entries, key) && top.sequence > 0
    requires forall x :: x in top.entries && x.Live? ==> x.age <= MAX_BOOTSTRAP_AGE_MS
    requires forall e :: e in seenByA + seenByB ==> Permitted(top, e)
    requires exists now :: Deliver(top, now) in seenByA
    requires exists now :: Deliver(top, now) in seenByB
    ensures var s, t := After(NewStore(a), seenByA), After(NewStore(b), seenByB);
      && (NoSweeps(seenByA) ==> key in s.entries)
      && (NoSweeps(seenByB) ==> key in t.entries)
      && (key in s.entries && key in t.entries ==>
            s.entries[key].deleted == t.entries[key].deleted
            && (!s.entries[key].deleted ==> s.entries[key].json == t.entries[key].json))
  {
    RunConverges(NewStore(a), top, seenByA, true);
    RunConverges(NewStore(b), top, seenByB, true);
    var e :| e in top.entries && e.key == key;
  }

  // ---------- Publications decode exactly while at most 256 keys are local ----------

  /** A key the store may hold, and a local value it may publish. */
  predicate HeldWell(text: Text, key: Key, held: Held)
  {
    && 0 < |key| <= MAX_KEY_BYTES && text.isUtf8(key)
    && (held.local && !held.deleted ==> |held.json| <= MAX_VALUE_BYTES && text.isUtf8(held.json) && text.isJson(held.json))
  }

  ghost predicate Well(text: Text, s: Store)
  {
    && |s.instance| == INSTANCE_BYTES
    && (forall i, j :: 0 <= i < j < |s.order| ==> s.order[i] != s.order[j])
    && (forall k :: k in s.order <==> k in s.entries)
    && (forall k :: k in s.entries ==> HeldWell(text, k, s.entries[k]))
  }

  /** Frames were decoded, texts encoded, and instances drawn before they reach the store. */
  ghost predicate EventWell(text: Text, e: Event)
  {
    match e
    case Deliver(f, _) => ValidFrame(text, f) && |f.entries| <= MAX_PRESENCE_ENTRIES
    case Set(key, json, _) => text.isUtf8(key) && text.isUtf8(json) && text.isJson(json)
    case Reconnects(instance) => |instance| == INSTANCE_BYTES
    case _ => true
  }

  lemma PutWell(text: Text, s: Store, key: Key, held: Held)
    requires Well(text, s) && HeldWell(text, key, held)
    ensures Well(text, Put(s, key, held))
  {
  }

  lemma {:induction false} EntriesWell(text: Text, s: Store, instance: Instance, incoming: seq<Entry>, now: int)
    requires Well(text, s) && forall e :: e in incoming ==> ValidEntry(text, e)
    ensures Well(text, ApplyEntries(s, instance, incoming, now))
    decreases |incoming|
  {
    if incoming != [] {
      assert incoming[0] in incoming;
      PutWell(text, s, incoming[0].key, HeldFrom(instance, incoming[0], now));
      EntriesWell(text, ApplyEntry(s, instance, incoming[0], now), instance, incoming[1..], now);
    }
  }

  lemma {:induction false} KeepFreshKeys(order: seq<Key>, entries: map<Key, Held>, now: int, ttl: int)
    requires forall i, j :: 0 <= i < j < |order| ==> order[i] != order[j]
    ensures var kept := KeepFresh(order, entries, now, ttl);
      && (forall k :: k in kept <==> k in order && !(k in entries && Stale(entries[k], now, ttl)))
      && (forall i, j :: 0 <= i < j < |kept| ==> kept[i] != kept[j])
    decreases |order|
  {
    if order != [] {
      KeepFreshKeys(order[1..], entries, now, ttl);
      assert order == [order[0]] + order[1..];
      assert order[0] !in order[1..];
    }
  }

  lemma StepWell(text: Text, s: Store, e: Event)
    requires Well(text, s) && EventWell(text, e)
    ensures Well(text, Step(s, e))
  {
    match e
    case Deliver(f, now) => EntriesWell(text, s, f.instance, f.entries, now);
    case Set(key, json, now) =>
      if !SetRefused(s, key, json) {
        PutWell(text, s, key, Held(json, now, s.instance, false, true));
      }
    case Delete(key, now) =>
      if key in s.entries {
        PutWell(text, s, key, Held([], now, s.instance, true, true));
      }
    case Sweeps(now, ttl) => KeepFreshKeys(s.order, s.entries, now, ttl);
    case Reconnects(instance) =>
      var t := BeginLifecycle(s, instance);
      forall k | k in t.entries
        ensures HeldWell(text, k, t.entries[k])
      {
        assert HeldWell(text, k, s.entries[k]);
      }
    case Publishes =>
  }

  lemma {:induction false} RunWell(text: Text, s: Store, events: seq<Event>)
    requires Well(text, s) && forall e :: e in events ==> EventWell(text, e)
    ensures Well(text, After(s, events))
    decreases |events|
  {
    if events != [] {
      assert events[0] in events;
      StepWell(text, s, events[0]);
      RunWell(text, Step(s, events[0]), events[1..]);
    }
  }

  lemma {:induction false} LocalKeysAre(order: seq<Key>, entries: map<Key, Held>)
    requires forall i, j :: 0 <= i < j < |order| ==> order[i] != order[j]
    ensures var keys := LocalKeys(order, entries);
      && (forall k :: k in keys <==> k in order && k in entries && entries[k].local)
      && (forall i, j :: 0 <= i < j < |keys| ==> keys[i] != keys[j])
    decreases |order|
  {
    if order != [] {
      LocalKeysAre(order[1..], entries);
      assert order == [order[0]] + order[1..];
      assert order[0] !in order[1..];
    }
  }

  lemma {:induction false} EntriesForAre(entries: map<Key, Held>, keys: seq<Key>, now: int)
    ensures var es := EntriesFor(entries, keys, now);
      |es| == |keys| && forall i :: 0 <= i < |keys| ==> es[i] == EntryFor(entries, keys[i], now)
    decreases |keys|
  {
    if keys != [] {
      EntriesForAre(entries, keys[1..], now);
    }
  }

  /** What a publication writes is a valid frame with distinct keys and bounded ages. */
  lemma PublishedIsValid(text: Text, s: Store, now: int)
    requires Well(text, s) && !Exhausted(s) && |FrameBytes(Published(s, now))| <= MAX_PRESENCE_BYTES
    ensures ValidFrame(text, Published(s, now)) && Distinct(Published(s, now).entries)
    ensures forall e :: e in Published(s, now).entries && e.Live? ==> e.age <= MAX_BOOTSTRAP_AGE_MS
    ensures |Published(s, now).entries| == |LocalKeys(s.order, s.entries)|
  {
    var keys, entries := LocalKeys(s.order, s.entries), Published(s, now).entries;
    LocalKeysAre(s.order, s.entries);
    EntriesForAre(s.entries, keys, now);
    forall i | 0 <= i < |entries|
      ensures entries[i].key == keys[i] && ValidEntry(text, entries[i])
      ensures entries[i].Live? ==> entries[i].age <= MAX_BOOTSTRAP_AGE_MS
    {
      assert keys[i] in keys;
    }
  }

  /**
   * In every run from a new store, what a publication writes decodes back to what was
   * published exactly while at most 256 keys are local.
   */
  lemma PublicationDecodesIff(text: Text, instance: Instance, events: seq<Event>, now: int)
    requires |instance| == INSTANCE_BYTES && forall e :: e in events ==> EventWell(text, e)
    requires var s := After(NewStore(instance), events);
      !Exhausted(s) && |FrameBytes(Published(s, now))| <= MAX_PRESENCE_BYTES
    ensures var s := After(NewStore(instance), events);
      DecodeFrame(text, FrameBytes(Published(s, now))) == Ok(Published(s, now))
      <==> |LocalKeys(s.order, s.entries)| <= MAX_PRESENCE_ENTRIES
  {
    RunWell(text, NewStore(instance), events);
    var s := After(NewStore(instance), events);
    PublishedIsValid(text, s, now);
    DecodeInvertsIffFewEntries(text, Published(s, now));
  }

  // ---------- More than 256 local keys can be reached ----------

  const SENDER: Instance := [9, 9, 9, 9, 9, 9, 9, 9, 9, 9, 9, 9, 9, 9, 9, 9]
  const OWN: Instance := [7, 7, 7, 7, 7, 7, 7, 7, 7, 7, 7, 7, 7, 7, 7, 7]

  function NthKey(i: nat): Key
    requires i < 300
  {
    [1 + i / 128, i % 128]
  }

  function Keys(n: nat): seq<Key>
    requires n <= 300
  {
    if n == 0 then [] else Keys(n - 1) + [NthKey(n - 1)]
  }

  /** A peer shows one key at a time, and this side deletes each: no limit applies to either. */
  function Rounds(n: nat): seq<Event>
    requires n <= 300
  {
    if n == 0 then []
    else Rounds(n - 1) + [Deliver(Frame(SENDER, n, [Live(NthKey(n - 1), 0, [48])]), 0), Delete(NthKey(n - 1), 0)]
  }

  ghost predicate Filled(s: Store, n: nat)
    requires n <= 300
  {
    && s.order == Keys(n) && s.instance == OWN && s.sequence == 0 && Greatest(s, SENDER) == n
    && (forall k :: k in s.entries <==> k in Keys(n))
    && (forall k :: k in s.entries ==> s.entries[k].local && s.entries[k].deleted)
  }

  lemma {:induction false} KeysAre(n: nat)
    requires n <= 300
    ensures |Keys(n)| == n && forall i :: 0 <= i < n ==> Keys(n)[i] == NthKey(i)
  {
    if n > 0 {
      KeysAre(n - 1);
    }
  }

  lemma FreshKey(n: nat)
    requires n < 300
    ensures NthKey(n) !in Keys(n)
  {
    KeysAre(n);
    forall i | 0 <= i < n
      ensures NthKey(i) != NthKey(n)
    {
      assert i == 128 * (i / 128) + i % 128 && n == 128 * (n / 128) + n % 128;
    }
  }

  lemma OneRound(s: Store, n: nat)
    requires n < 300 && Filled(s, n)
    ensures Filled(After(s, [Deliver(Frame(SENDER, n + 1, [Live(NthKey(n), 0, [48])]), 0), Delete(NthKey(n), 0)]), n + 1)
  {
    FreshKey(n);
    var f := Frame(SENDER, n + 1, [Live(NthKey(n), 0, [48])]);
    var round := [Deliver(f, 0), Delete(NthKey(n), 0)];
    assert f.entries[1..] == [];
    assert ApplyEntries(s, SENDER, f.entries, 0) == ApplyEntry(s, SENDER, f.entries[0], 0);
    var t := Step(s, round[0]);
    assert round[1..] == [round[1]] && [round[1]][1..] == [];
    assert After(Step(t, round[1]), []) == Step(t, round[1]);
    assert After(t, [round[1]]) == Step(t, round[1]);
    assert After(s, round) == After(t, [round[1]]);
  }

  lemma {:induction false} RoundsFill(n: nat)
    requires n <= 300
    ensures Filled(After(NewStore(OWN), Rounds(n)), n)
  {
    if n > 0 {
      RoundsFill(n - 1);
      var last := [Deliver(Frame(SENDER, n, [Live(NthKey(n - 1), 0, [48])]), 0), Delete(NthKey(n - 1), 0)];
      AfterConcat(NewStore(OWN), Rounds(n - 1), last);
      OneRound(After(NewStore(OWN), Rounds(n - 1)), n - 1);
    }
  }

  lemma {:induction false} TombstonesLength(s: Store, keys: seq<Key>)
    requires forall k :: k in keys ==> |k| == 2 && k in s.entries && s.entries[k].deleted
    ensures |EntriesFor(s.entries, keys, 0)| == |keys| && |EntriesBytes(EntriesFor(s.entries, keys, 0))| == 4 * |keys|
    decreases |keys|
  {
    if keys != [] {
      assert keys[0] in keys;
      TombstonesLength(s, keys[1..]);
      var es := EntriesFor(s.entries, keys, 0);
      assert es[1..] == EntriesFor(s.entries, keys[1..], 0);
      assert |EntryBytes(es[0])| == 4;
    }
  }

  lemma {:induction false} AllLocal(order: seq<Key>, entries: map<Key, Held>)
    requires forall k :: k in order ==> k in entries && entries[k].local
    ensures LocalKeys(order, entries) == order
    decreases |order|
  {
    if order != [] {
      assert order[0] in order;
      AllLocal(order[1..], entries);
    }
  }

  lemma TwoBytes(n: nat)
    requires 128 <= n < 16384
    ensures |Uint(n)| == 2
  {
    assert |Uint(n / 128)| == 1;
  }

  lemma TombstoneEntries(s: Store, n: nat)
    requires n < 300 && Filled(s, n)
    ensures LocalKeys(s.order, s.entries) == Keys(n)
    ensures |Published(s, 0).entries| == n && |EntriesBytes(Published(s, 0).entries)| == 4 * n
  {
    KeysAre(n);
    assert forall k :: k in Keys(n) ==> |k| == 2;
    AllLocal(s.order, s.entries);
    TombstonesLength(s, s.order);
  }

  lemma TombstoneFrameLength(s: Store, n: nat)
    requires 256 < n < 300 && Filled(s, n)
    ensures LocalKeys(s.order, s.entries) == Keys(n) && |FrameBytes(Published(s, 0))| == 5 + |s.instance| + 4 * n
  {
    TombstoneEntries(s, n);
    TwoBytes(n);
  }

  lemma FilledWell(text: Text, s: Store, n: nat)
    requires n < 300 && Filled(s, n) && forall i: nat :: i < 300 ==> text.isUtf8(NthKey(i))
    ensures Well(text, s)
  {
    KeysAre(n);
    forall k | k in s.entries
      ensures HeldWell(text, k, s.entries[k])
    {
      var i :| 0 <= i < n && Keys(n)[i] == k;
    }
    forall i, j | 0 <= i < j < n
      ensures s.order[i] != s.order[j]
    {
      assert i == 128 * (i / 128) + i % 128 && j == 128 * (j / 128) + j % 128;
    }
  }

  lemma OneEntryFrame(text: Text, f: Frame)
    requires |f.instance| == INSTANCE_BYTES && 0 < f.sequence <= 300
    requires |f.entries| == 1 && f.entries[0].Live? && f.entries[0].age == 0
    requires |f.entries[0].key| == 2 && |f.entries[0].json| == 1 && ValidEntry(text, f.entries[0])
    ensures ValidFrame(text, f)
  {
    EightBytesSuffice(f.sequence);
    assert f.entries[1..] == [];
    var bytes := EntryBytes(f.entries[0]);
    assert |bytes| <= 10;
    assert EntriesBytes(f.entries) == bytes + [];
  }

  /** Every event of the rounds is one the store can meet: its frames are ones a receiver decodes. */
  lemma {:induction false} RoundsWell(text: Text, n: nat, e: Event)
    requires n <= 300 && e in Rounds(n)
    requires text.isUtf8([48]) && text.isJson([48]) && forall i: nat :: i < 300 ==> text.isUtf8(NthKey(i))
    ensures EventWell(text, e)
  {
    if n > 0 {
      if e in Rounds(n - 1) {
        RoundsWell(text, n - 1, e);
      } else if e.Deliver? {
        var entry := Live(NthKey(n - 1), 0, [48]);
        assert e == Deliver(Frame(SENDER, n, [entry]), 0) && [entry][0] == entry;
        OneEntryFrame(text, e.frame);
      }
    }
  }

  /**
   * After 257 rounds or more, each of them one decodable frame and one local delete, the
   * store publishes a frame, well under 64 KiB, that every receiver refuses.
   */
  lemma UndecodablePublicationIsReachable(text: Text, n: nat)
    requires 256 < n < 300 && forall i: nat :: i < 300 ==> text.isUtf8(NthKey(i))
    requires text.isUtf8([48]) && text.isJson([48])
    ensures forall e :: e in Rounds(n) ==> EventWell(text, e)
    ensures var s := After(NewStore(OWN), Rounds(n));
      && !Exhausted(s) && |FrameBytes(Published(s, 0))| <= MAX_PRESENCE_BYTES
      && DecodeFrame(text, FrameBytes(Published(s, 0))) == Err(TooMany)
  {
    forall e | e in Rounds(n)
      ensures EventWell(text, e)
    {
      RoundsWell(text, n, e);
    }
    RoundsFill(n);
    KeysAre(n);
    var s := After(NewStore(OWN), Rounds(n));
    TombstoneFrameLength(s, n);
    FilledWell(text, s, n);
    PublishedIsValid(text, s, 0);
    DecodeInvertsIffFewEntries(text, Published(s, 0));
  }

  // ---------- The store, updated in place ----------

  class PresenceChannel {
    var entries: map<Key, Held>
    var order: seq<Key>
    var greatestSequence: map<Instance, nat>
    var instance: Instance
    var sequence: nat
    var destroyed: bool
    const ttl: int

    function View(): Store
      reads this
    {
      Store(entries, order, greatestSequence, instance, sequence)
    }

    constructor (instance: Instance, ttl: int)
      ensures View() == NewStore(instance) && !destroyed
    {
      entries, order, greatestSequence, this.instance, sequence := map[], [], map[], instance, 0;
      destroyed, this.ttl := false, ttl;
    }

    method SetEntry(key: Key, held: Held)
      modifies this`entries, this`order
      ensures View() == Put(old(View()), key, held)
    {
      if key !in entries {
        order := order + [key];
      }
      entries := entries[key := held];
    }

    /** A payload that does not decode throws and changes nothing. */
    method ReceiveBytes(text: Text, bytes: seq<byte>, now: int) returns (thrown: bool)
      modifies this
      ensures destroyed == old(destroyed)
      ensures View() == if destroyed || DecodeFrame(text, bytes).Err? then old(View())
                        else Apply(old(View()), DecodeFrame(text, bytes).value, now)
      ensures thrown <==> !destroyed && DecodeFrame(text, bytes).Err?
    {
      if destroyed {
        return false;
      }
      var decoded := Decode(text, bytes);
      if decoded.Err? {
        return true;
      }
      Receive(decoded.value, now);
      return false;
    }

    method Receive(f: Frame, now: int)
      modifies this`entries, this`order, this`greatestSequence
      ensures View() == Apply(old(View()), f, now)
    {
      if f.sequence <= Greatest(View(), f.instance) {
        return;
      }
      for i := 0 to |f.entries|
        invariant ApplyEntries(View(), f.instance, f.entries[i..], now) == ApplyEntries(old(View()), f.instance, f.entries, now)
        invariant sequence == old(sequence) && instance == old(instance)
      {
        var incoming := f.entries[i];
        assert f.entries[i..][0] == incoming && f.entries[i..][1..] == f.entries[i + 1..];
        if Shielded(View(), f.instance, incoming) {
          continue;
        }
        if incoming.Deleted? {
          SetEntry(incoming.key, Held([], now, f.instance, true, false));
          continue;
        }
        if incoming.age > MAX_BOOTSTRAP_AGE_MS {
          continue;
        }
        SetEntry(incoming.key, Held(incoming.json, now, f.instance, false, false));
      }
      greatestSequence := greatestSequence[f.instance := f.sequence];
    }

    method SetValue(key: Key, json: seq<byte>, now: int) returns (thrown: bool)
      modifies this`entries, this`order
      ensures View() == if destroyed then old(View()) else SetLocal(old(View()), key, json, now)
      ensures thrown <==> !destroyed && SetRefused(old(View()), key, json)
    {
      if destroyed {
        return false;
      }
      if key !in entries && |entries| >= MAX_PRESENCE_ENTRIES {
        return true;
      }
      if |json| > MAX_VALUE_BYTES {
        return true;
      }
      if |key| == 0 || |key| > MAX_KEY_BYTES {
        return true;
      }
      SetEntry(key, Held(json, now, instance, false, true));
      return false;
    }

    method DeleteValue(key: Key, now: int)
      modifies this`entries, this`order
      ensures View() == if destroyed then old(View()) else DeleteLocal(old(View()), key, now)
    {
      if destroyed || key !in entries || entries[key].deleted {
        return;
      }
      SetEntry(key, Held([], now, instance, true, true));
    }

    method BeginConnectionLifecycle(next: Instance)
      modifies this
      ensures View() == BeginLifecycle(old(View()), next) && destroyed == old(destroyed)
    {
      instance, sequence := next, 0;
      entries := map k | k in entries :: if entries[k].local then entries[k].(instance := next) else entries[k];
    }

    method SweepStale(now: int)
      modifies this`entries, this`order
      ensures View() == Sweep(old(View()), now, ttl)
    {
      var kept: seq<Key> := [];
      for i := 0 to |order|
        invariant View() == old(View())
        invariant kept + KeepFresh(order[i..], entries, now, ttl) == KeepFresh(order, entries, now, ttl)
      {
        var key := order[i];
        assert order[i..][0] == key && order[i..][1..] == order[i + 1..];
        if !(key in entries && Stale(entries[key], now, ttl)) {
          Regroup(kept, [key], KeepFresh(order[i + 1..], entries, now, ttl));
          kept := kept + [key];
        }
      }
      order := kept;
      entries := map k | k in entries && !Stale(entries[k], now, ttl) :: entries[k];
    }

    /** Publishes every local key; throws when the sequence is used up, or the frame is over a limit. */
    method EncodeAll(now: int) returns (r: Option<seq<byte>>)
      modifies this`sequence
      ensures sequence == if Exhausted(old(View())) then old(sequence) else old(sequence) + 1
      ensures r == if !Exhausted(old(View())) && Publishable(Published(old(View()), now))
                   then Some(FrameBytes(Published(old(View()), now))) else None
    {
      if sequence >= MAX_SAFE - 1 {
        return None;
      }
      sequence := sequence + 1;
      var f := Frame(instance, sequence, EntriesFor(entries, LocalKeys(order, entries), now));
      r := Encode(f);
    }
  }
}
