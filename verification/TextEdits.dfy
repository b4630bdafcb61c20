/**
 * How the editor and the replica exchange text in client/src/collab/esbt-engine.ts:
 * reconciling by one change, replaying a list of changes with a running offset, and
 * splitting a large replacement into bounded transactions.
 *
 * Text is a sequence of UTF-16 code units, written as numbers.
 */
module TextEdits {
  import opened Sequences
  import opened Wrappers

  type Text = seq<int>

  const EDITOR_CHUNK_UNITS := 4096

  /** Replace the text between two offsets. */
  datatype Change = Change(from: nat, to: nat, insert: Text)

  predicate InRange(doc: Text, c: Change) { c.from <= c.to <= |doc| }

  function Substitute(doc: Text, c: Change): Text
    requires InRange(doc, c)
  {
    doc[..c.from] + c.insert + doc[c.to..]
  }

  // ---------- Reconciling ----------

  /** How much of the text a change leaves alone. */
  function Kept(doc: Text, c: Change): int { c.from + |doc| - c.to }

  /**
   * The one change that turns the current text into the target; none when they agree.
   * No other single change leaves more of the current text alone.
   */
  method Reconcile(current: Text, target: Text) returns (r: Option<Change>)
    ensures r.None? <==> current == target
    ensures r.Some? ==> InRange(current, r.value) && Substitute(current, r.value) == target
    ensures r.Some? ==> forall c: Change :: InRange(current, c) && Substitute(current, c) == target ==>
      Kept(current, c) <= Kept(current, r.value)
  {
    if current == target {
      return None;
    }
    var from := 0;
    var shortest := if |current| < |target| then |current| else |target|;
    while from < shortest && current[from] == target[from]
      invariant from <= shortest
      invariant current[..from] == target[..from]
    {
      from := from + 1;
    }
    var currentEnd, targetEnd := |current|, |target|;
    while currentEnd > from && targetEnd > from && current[currentEnd - 1] == target[targetEnd - 1]
      invariant from <= currentEnd <= |current| && from <= targetEnd <= |target|
      invariant |current| - currentEnd == |target| - targetEnd
      invariant current[currentEnd..] == target[targetEnd..]
      decreases currentEnd
    {
      assert current[currentEnd - 1..] == [current[currentEnd - 1]] + current[currentEnd..];
      assert target[targetEnd - 1..] == [target[targetEnd - 1]] + target[targetEnd..];
      currentEnd, targetEnd := currentEnd - 1, targetEnd - 1;
    }
    var change := Change(from, currentEnd, target[from..targetEnd]);
    assert target == target[..from] + target[from..targetEnd] + target[targetEnd..];
    forall c: Change | InRange(current, c) && Substitute(current, c) == target
      ensures Kept(current, c) <= Kept(current, change)
    {
      KeepsNoMore(current, target, change, targetEnd, c);
    }
    r := Some(change);
  }

  /** A change keeps at most the common prefix and suffix, and they do not overlap. */
  lemma KeepsNoMore(current: Text, target: Text, best: Change, targetEnd: nat, c: Change)
    requires InRange(current, best) && best.from <= targetEnd <= |target|
    requires |current| - best.to == |target| - targetEnd
    requires best.from == |current| || best.from == |target| || current[best.from] != target[best.from]
    requires best.to == best.from || targetEnd == best.from || current[best.to - 1] != target[targetEnd - 1]
    requires InRange(current, c) && Substitute(current, c) == target
    ensures Kept(current, c) <= Kept(current, best)
  {
    var shift := |target| - |current|;
    assert forall i :: 0 <= i < c.from ==> current[i] == target[i];
    assert forall j :: c.to <= j < |current| ==> current[j] == target[j + shift];
    assert c.from <= best.from;
    assert best.to > best.from && targetEnd > best.from ==> c.to >= best.to;
  }

  // ---------- Replaying a list of changes ----------

  /** Ascending changes that do not overlap, from an offset on. */
  predicate Ordered(doc: Text, cs: seq<Change>, start: nat)
    decreases |cs|
  {
    if cs == [] then start <= |doc|
    else start <= cs[0].from && InRange(doc, cs[0]) && Ordered(doc, cs[1..], cs[0].to)
  }

  /** All changes at once, each at its own offset in the text before them all. */
  function Simultaneous(doc: Text, cs: seq<Change>, start: nat): Text
    requires Ordered(doc, cs, start)
    decreases |cs|
  {
    if cs == [] then doc[start..]
    else doc[start..cs[0].from] + cs[0].insert + Simultaneous(doc, cs[1..], cs[0].to)
  }

  /** One change at its moved offset: what is done grows by it, and the rest of the text is untouched. */
  lemma ReplayStep(doc: Text, c: Change, done: Text, start: nat, at: nat)
    requires start <= c.from <= c.to <= |doc| && at == |done| + c.from - start
    ensures var text := done + doc[start..];
      && at + (c.to - c.from) <= |text|
      && var cut := text[..at] + text[at + (c.to - c.from)..];
      cut[..at] + c.insert + cut[at..] == (done + (doc[start..c.from] + c.insert)) + doc[c.to..]
  {
    var text := done + doc[start..];
    assert text[..at] == done + doc[start..c.from];
    assert text[at + (c.to - c.from)..] == doc[c.to..];
  }

  /** The replica's text after each change is applied in turn, moved by what went before. */
  method Replay(doc: Text, cs: seq<Change>) returns (text: Text)
    requires Ordered(doc, cs, 0)
    ensures text == Simultaneous(doc, cs, 0)
  {
    text := doc;
    var adjust := 0;
    ghost var done: Text, start: nat := [], 0;
    for i := 0 to |cs|
      invariant Ordered(doc, cs[i..], start) && start <= |doc|
      invariant text == done + doc[start..] && |done| == start + adjust
      invariant Simultaneous(doc, cs, 0) == done + Simultaneous(doc, cs[i..], start)
    {
      var c := cs[i];
      assert cs[i..][0] == c && cs[i..][1..] == cs[i + 1..];
      ghost var rest := Simultaneous(doc, cs[i + 1..], c.to);
      var at := c.from + adjust;
      ReplayStep(doc, c, done, start, at);
      text := text[..at] + text[at + (c.to - c.from)..];
      text := text[..at] + c.insert + text[at..];
      Regroup(done, doc[start..c.from] + c.insert, rest);
      done := done + (doc[start..c.from] + c.insert);
      adjust := adjust + |c.insert| - (c.to - c.from);
      start := c.to;
    }
  }

  // ---------- Bounded transactions ----------

  /** One transaction: some units deleted and some inserted at one offset. */
  datatype Transaction = Transaction(at: nat, deleted: nat, inserted: Text)

  function Size(t: Transaction): nat { t.deleted + |t.inserted| }

  /** A replacement in transactions of bounded size has the effect of one substitution. */
  method ReplaceRangeChunked(doc: Text, c: Change) returns (text: Text, log: seq<Transaction>)
    requires InRange(doc, c)
    ensures text == Substitute(doc, c)
    ensures forall t :: t in log ==> Size(t) <= EDITOR_CHUNK_UNITS
  {
    var from, to, insert := c.from, c.to, c.insert;
    if to - from + |insert| <= EDITOR_CHUNK_UNITS {
      text := doc[..from] + doc[to..];
      text := text[..from] + insert + text[from..];
      log := [Transaction(from, to - from, insert)];
      return;
    }
    text, log := doc, [];
    var remainingDelete := to - from;
    while remainingDelete > 0
      invariant 0 <= remainingDelete <= to - from
      invariant text == doc[..from] + doc[to - remainingDelete..]
      invariant forall t :: t in log ==> Size(t) <= EDITOR_CHUNK_UNITS
    {
      var count := if remainingDelete < EDITOR_CHUNK_UNITS then remainingDelete else EDITOR_CHUNK_UNITS;
      log := log + [Transaction(from, count, [])];
      text := text[..from] + text[from + count..];
      remainingDelete := remainingDelete - count;
    }
    var offset := 0;
    while offset < |insert|
      invariant 0 <= offset
      invariant text == doc[..from] + insert[..Min(offset, |insert|)] + doc[to..]
      invariant forall t :: t in log ==> Size(t) <= EDITOR_CHUNK_UNITS
    {
      var end := Min(offset + EDITOR_CHUNK_UNITS, |insert|);
      var chunk := insert[offset..end];
      log := log + [Transaction(from + offset, 0, chunk)];
      InsertStep(doc[..from], insert[..offset], chunk, doc[to..]);
      assert insert[..end] == insert[..offset] + chunk;
      text := text[..from + offset] + chunk + text[from + offset..];
      offset := offset + EDITOR_CHUNK_UNITS;
    }
    assert insert[..|insert|] == insert;
  }

  lemma InsertStep(head: Text, done: Text, chunk: Text, tail: Text)
    ensures var text, at := head + done + tail, |head| + |done|;
      text[..at] + chunk + text[at..] == head + (done + chunk) + tail
  {
    var text, at := head + done + tail, |head| + |done|;
    assert text[..at] == head + done && text[at..] == tail;
  }

  function Min(a: int, b: int): int { if a < b then a else b }

  // ---------- The fallback with unmoved offsets ----------

  /** Changes applied in turn at their own offsets, none of them moved by those before. */
  function Unmoved(doc: Text, cs: seq<Change>): Option<Text>
    decreases |cs|
  {
    if cs == [] then Some(doc)
    else if !InRange(doc, cs[0]) then None
    else Unmoved(Substitute(doc, cs[0]), cs[1..])
  }

  /** The fallback is right when every change but the last keeps the length of the text. */
  lemma {:induction false} FallbackIsRight(doc: Text, cs: seq<Change>, done: Text, start: nat)
    requires Ordered(doc, cs, start) && |done| == start
    requires forall i :: 0 <= i < |cs| - 1 ==> |cs[i].insert| == cs[i].to - cs[i].from
    ensures Unmoved(done + doc[start..], cs) == Some(done + Simultaneous(doc, cs, start))
    decreases |cs|
  {
    if cs != [] {
      var c, text := cs[0], done + doc[start..];
      var next := done + doc[start..c.from] + c.insert;
      assert Substitute(text, c) == next + doc[c.to..];
      var rest := Simultaneous(doc, cs[1..], c.to);
      Regroup(done, doc[start..c.from], c.insert);
      Regroup(done, doc[start..c.from] + c.insert, rest);
      assert done + Simultaneous(doc, cs, start) == next + rest;
      if |cs| == 1 {
        assert Unmoved(next + doc[c.to..], []) == Some(next + doc[c.to..]);
      } else {
        FallbackIsRight(doc, cs[1..], next, c.to);
      }
    }
  }

  predicate RightFor(doc: Text, cs: seq<Change>)
    requires Ordered(doc, cs, 0)
  {
    Unmoved(doc, cs) == Some(Simultaneous(doc, cs, 0))
  }

  /** Changes as an editor reports them: apart from each other, and none of them nothing. */
  predicate Separated(cs: seq<Change>)
  {
    && (forall i :: 0 <= i < |cs| ==> cs[i].from <= cs[i].to && (cs[i].from < cs[i].to || cs[i].insert != []))
    && (forall i :: 0 <= i < |cs| - 1 ==> cs[i].to < cs[i + 1].from)
  }

  function End(cs: seq<Change>): nat { if cs == [] then 0 else cs[|cs| - 1].to }

  predicate KeepsLength(c: Change) { |c.insert| == c.to - c.from }

  predicate AllButLastKeepLength(cs: seq<Change>) { forall i :: 0 <= i < |cs| - 1 ==> KeepsLength(cs[i]) }

  /** A text that repeats nothing, and nothing of what is inserted. */
  function Marked(base: int, n: nat): Text { seq(n, i => base + i) }

  predicate Below(t: Text, base: int) { forall x :: x in t ==> x < base }

  ghost predicate AllBelow(cs: seq<Change>, base: int) { forall i :: 0 <= i < |cs| ==> Below(cs[i].insert, base) }

  // Units of the text are at least the base, inserted ones are below it.

  function CountBelow(t: Text, base: int): nat
  {
    if t == [] then 0 else (if t[0] < base then 1 else 0) + CountBelow(t[1..], base)
  }

  /** How many inserted units follow the first y. */
  function CountAfter(t: Text, y: int, base: int): nat
  {
    if t == [] then 0 else if t[0] == y then CountBelow(t[1..], base) else CountAfter(t[1..], y, base)
  }

  function Inserted(cs: seq<Change>): nat
  {
    if cs == [] then 0 else |cs[0].insert| + Inserted(cs[1..])
  }

  lemma {:induction false} CountConcat(a: Text, b: Text, base: int)
    ensures CountBelow(a + b, base) == CountBelow(a, base) + CountBelow(b, base)
    decreases |a|
  {
    if a == [] {
      assert a + b == b;
    } else {
      assert (a + b)[1..] == a[1..] + b;
      CountConcat(a[1..], b, base);
    }
  }

  lemma {:induction false} CountAfterConcat(a: Text, b: Text, y: int, base: int)
    ensures CountAfter(a + b, y, base) ==
      if y in a then CountAfter(a, y, base) + CountBelow(b, base) else CountAfter(b, y, base)
    decreases |a|
  {
    if a == [] {
      assert a + b == b;
    } else {
      assert (a + b)[1..] == a[1..] + b && a == [a[0]] + a[1..];
      if a[0] == y {
        CountConcat(a[1..], b, base);
      } else {
        CountAfterConcat(a[1..], b, y, base);
      }
    }
  }

  lemma {:induction false} CountAfterAtMost(t: Text, y: int, base: int)
    ensures CountAfter(t, y, base) <= CountBelow(t, base)
    decreases |t|
  {
    if t != [] {
      CountAfterAtMost(t[1..], y, base);
    }
  }

  lemma {:induction false} CountOfBelow(t: Text, base: int)
    requires Below(t, base)
    ensures CountBelow(t, base) == |t|
    decreases |t|
  {
    if t != [] {
      assert t[0] in t && forall x :: x in t[1..] ==> x in t;
      CountOfBelow(t[1..], base);
    }
  }

  lemma {:induction false} CountOfMarks(t: Text, base: int)
    requires forall x :: x in t ==> x >= base
    ensures CountBelow(t, base) == 0
    decreases |t|
  {
    if t != [] {
      assert t[0] in t && forall x :: x in t[1..] ==> x in t;
      CountOfMarks(t[1..], base);
    }
  }

  /** One change adds at most what it inserts, in all and after any unit of the text. */
  lemma ChangeAdds(text: Text, c: Change, y: int, base: int)
    requires InRange(text, c) && Below(c.insert, base) && y >= base
    ensures CountBelow(Substitute(text, c), base) + CountBelow(text[c.from..c.to], base) == CountBelow(text, base) + |c.insert|
    ensures CountAfter(Substitute(text, c), y, base) <= CountAfter(text, y, base) + |c.insert|
    ensures y !in text ==> y !in Substitute(text, c)
  {
    var a, r, b := text[..c.from], text[c.from..c.to], text[c.to..];
    assert text == a + (r + b) && Substitute(text, c) == a + (c.insert + b);
    CountConcat(a, r + b, base);
    CountConcat(r, b, base);
    CountConcat(a, c.insert + b, base);
    CountConcat(c.insert, b, base);
    CountOfBelow(c.insert, base);
    CountAfterConcat(a, r + b, y, base);
    CountAfterConcat(r, b, y, base);
    CountAfterConcat(a, c.insert + b, y, base);
    CountAfterConcat(c.insert, b, y, base);
    CountAfterAtMost(b, y, base);
  }

  /** The same for a list of changes applied in turn, which also leave alone what lies before them. */
  lemma {:induction false} UnmovedAdds(text: Text, cs: seq<Change>, k: nat, y: int, base: int)
    requires Unmoved(text, cs).Some? && AllBelow(cs, base) && y >= base
    requires k <= |text| && forall i :: 0 <= i < |cs| ==> k <= cs[i].from
    ensures var r := Unmoved(text, cs).value;
      && CountBelow(r, base) <= CountBelow(text, base) + Inserted(cs)
      && CountAfter(r, y, base) <= CountAfter(text, y, base) + Inserted(cs)
      && (y !in text ==> y !in r)
      && k <= |r| && r[..k] == text[..k]
    decreases |cs|
  {
    if cs != [] {
      ChangeAdds(text, cs[0], y, base);
      var next := Substitute(text, cs[0]);
      assert next[..k] == text[..k];
      UnmovedAdds(next, cs[1..], k, y, base);
    }
  }

  /** What comes of the whole list at once holds every insertion. */
  lemma {:induction false} SimultaneousCount(base: int, n: nat, cs: seq<Change>, start: nat)
    requires Ordered(Marked(base, n), cs, start) && AllBelow(cs, base)
    ensures CountBelow(Simultaneous(Marked(base, n), cs, start), base) == Inserted(cs)
    decreases |cs|
  {
    var doc := Marked(base, n);
    if cs == [] {
      CountOfMarks(doc[start..], base);
    } else {
      var rest := Simultaneous(doc, cs[1..], cs[0].to);
      CountConcat(doc[start..cs[0].from] + cs[0].insert, rest, base);
      CountConcat(doc[start..cs[0].from], cs[0].insert, base);
      CountOfMarks(doc[start..cs[0].from], base);
      CountOfBelow(cs[0].insert, base);
      SimultaneousCount(base, n, cs[1..], cs[0].to);
    }
  }

  // ---------- A change that is not moved lands wrong ----------

  /** No unit of the original text twice, and none from the bound on. */
  predicate Once(t: Text, base: int, bound: int)
  {
    && (forall i :: 0 <= i < |t| ==> t[i] < bound)
    && (forall i, j :: 0 <= i < j < |t| && t[j] >= base ==> t[i] != t[j])
  }

  lemma {:induction false} SeparatedOrdered(doc: Text, cs: seq<Change>, start: nat)
    requires Separated(cs) && End(cs) <= |doc| && start <= (if cs == [] then |doc| else cs[0].from)
    ensures Ordered(doc, cs, start)
    decreases |cs|
  {
    if |cs| == 1 {
      assert cs[1..] == [];
    } else if cs != [] {
      SeparatedRest(cs);
      SeparatedOrdered(doc, cs[1..], cs[0].to);
    }
  }

  lemma {:induction false} SeparatedFrom(cs: seq<Change>, i: nat)
    requires Separated(cs) && i < |cs|
    ensures cs[0].from <= cs[i].from && cs[i].to <= End(cs)
    decreases i, |cs|
  {
    if i > 0 {
      SeparatedFrom(cs, i - 1);
    }
    EndIsLast(cs, i);
  }

  lemma {:induction false} EndIsLast(cs: seq<Change>, i: nat)
    requires Separated(cs) && i < |cs|
    ensures cs[i].to <= End(cs)
    decreases |cs| - i
  {
    if i < |cs| - 1 {
      EndIsLast(cs, i + 1);
    }
  }

  /** What the lemmas below ask: part of the list is done, and the done part is a different length from what it stood for. */
  ghost predicate Shifted(base: int, n: nat, cs: seq<Change>, done: Text, start: nat)
  {
    && Separated(cs) && cs != [] && AllBelow(cs, base)
    && start < cs[0].from && End(cs) < n
    && Ordered(Marked(base, n), cs, start)
    && Once(done, base, base + start) && |done| != start
  }

  ghost predicate Wrong(base: int, n: nat, cs: seq<Change>, done: Text, start: nat)
    requires Shifted(base, n, cs, done, start)
  {
    Unmoved(done + Marked(base, n)[start..], cs) != Some(done + Simultaneous(Marked(base, n), cs, start))
  }

  /** Text was lost before: the change leaves a unit in place that should have been behind it. */
  lemma WrongAfterLoss(base: int, n: nat, cs: seq<Change>, done: Text, start: nat)
    requires Shifted(base, n, cs, done, start) && |done| < start
    ensures Wrong(base, n, cs, done, start)
  {
    var doc, c := Marked(base, n), cs[0];
    var text, f := done + doc[start..], c.from;
    EndIsLast(cs, 0);
    if Unmoved(text, cs).Some? {
      forall i | 0 <= i < |cs|
        ensures f <= cs[i].from
      {
        SeparatedFrom(cs, i);
      }
      UnmovedAdds(text, cs, f, base, base);
      var k, rest := |done| + (f - start), Simultaneous(doc, cs[1..], c.to);
      var all := done + (doc[start..f] + c.insert + rest);
      assert Unmoved(text, cs).value[k] == text[k] == doc[f];
      assert all[k] == (c.insert + rest)[0];
      if c.insert != [] {
        assert c.insert[0] in c.insert;
      } else {
        assert rest[0] == doc[c.to] by {
          if |cs| > 1 {
            assert cs[1..][0] == cs[1];
          }
        }
      }
    }
  }

  /** Text was gained before, so the insertion comes before y: nothing inserted follows it yet. */
  lemma NothingAfter(base: int, n: nat, c: Change, done: Text, start: nat)
    requires start < c.from <= c.to < n && Once(done, base, base + start) && |done| > start
    requires Below(c.insert, base)
    ensures var text, y := done + Marked(base, n)[start..], base + c.from - 1;
      InRange(text, c) ==> CountAfter(Substitute(text, c), y, base) == 0
  {
    var doc, f, y := Marked(base, n), c.from, base + c.from - 1;
    var text := done + doc[start..];
    if InRange(text, c) {
      var head, tail := text[..f], text[c.to..];
      assert Substitute(text, c) == head + (c.insert + tail);
      assert y !in head;
      CountAfterConcat(head, c.insert + tail, y, base);
      CountAfterConcat(c.insert, tail, y, base);
      assert text == text[..c.to] + tail;
      CountAfterConcat(text[..c.to], tail, y, base);
      CountAfterConcat(done, doc[start..], y, base);
      CountOfMarks(doc[start..], base);
      CountAfterAtMost(doc[start..], y, base);
      CountAfterAtMost(tail, y, base);
    }
  }

  lemma AfterKept(done: Text, kept: Text, insert: Text, rest: Text, y: int, base: int)
    requires y !in done && y in kept && Below(insert, base)
    ensures CountAfter(done + (kept + (insert + rest)), y, base) >= |insert| + CountBelow(rest, base)
  {
    CountAfterConcat(done, kept + (insert + rest), y, base);
    CountAfterConcat(kept, insert + rest, y, base);
    CountConcat(insert, rest, base);
    CountOfBelow(insert, base);
  }

  /** In what comes of the list at once, every insertion from the first on follows y. */
  lemma AllAfter(base: int, n: nat, cs: seq<Change>, done: Text, start: nat)
    requires cs != [] && AllBelow(cs, base) && Ordered(Marked(base, n), cs, start)
    requires start < cs[0].from && Once(done, base, base + start)
    ensures var y := base + cs[0].from - 1;
      CountAfter(done + Simultaneous(Marked(base, n), cs, start), y, base) >= Inserted(cs)
  {
    var doc, c, y := Marked(base, n), cs[0], base + cs[0].from - 1;
    var kept, rest := doc[start..c.from], Simultaneous(doc, cs[1..], c.to);
    Regroup(kept, c.insert, rest);
    assert kept[c.from - 1 - start] == y && y !in done;
    AfterKept(done, kept, c.insert, rest, y, base);
    SimultaneousCount(base, n, cs[1..], c.to);
  }

  /** Text was gained before: an insertion lands ahead of the unit it should have followed. */
  lemma WrongInsertion(base: int, n: nat, cs: seq<Change>, done: Text, start: nat)
    requires Shifted(base, n, cs, done, start) && |done| > start && cs[0].insert != []
    ensures Wrong(base, n, cs, done, start)
  {
    var text := done + Marked(base, n)[start..];
    EndIsLast(cs, 0);
    if Unmoved(text, cs).Some? {
      NothingAfter(base, n, cs[0], done, start);
      UnmovedAdds(Substitute(text, cs[0]), cs[1..], 0, base + cs[0].from - 1, base);
      AllAfter(base, n, cs, done, start);
    }
  }

  /** A deletion that takes a unit of the original text takes one that is kept. */
  lemma KeptIsTaken(base: int, n: nat, cs: seq<Change>, done: Text, start: nat)
    requires Shifted(base, n, cs, done, start) && |done| > start && cs[0].insert == []
    requires var text := done + Marked(base, n)[start..]; InRange(text, cs[0]) && text[cs[0].from] >= base
    ensures var text := done + Marked(base, n)[start..]; var z := text[cs[0].from];
      z !in Substitute(text, cs[0]) && z in done + Simultaneous(Marked(base, n), cs, start)
  {
    var doc, c := Marked(base, n), cs[0];
    EndIsLast(cs, 0);
    var text, f := done + doc[start..], c.from;
    var z := text[f];
    assert Once(text, base, base + n);
    assert c.from < c.to;
    if f < |done| {
      assert z == done[f];
    } else {
      assert z == doc[start..f][f - |done|];
      assert z in Simultaneous(doc, cs, start);
    }
  }

  /** A deletion that takes an inserted unit leaves too few of them. */
  lemma InsertedIsTaken(base: int, n: nat, cs: seq<Change>, done: Text, start: nat)
    requires Shifted(base, n, cs, done, start) && cs[0].insert == []
    requires var text := done + Marked(base, n)[start..]; InRange(text, cs[0]) && text[cs[0].from] < base
    ensures var doc := Marked(base, n);
      CountBelow(Substitute(done + doc[start..], cs[0]), base) + Inserted(cs[1..])
        < CountBelow(done + Simultaneous(doc, cs, start), base)
  {
    var doc, c := Marked(base, n), cs[0];
    var text, f := done + doc[start..], c.from;
    assert c.from < c.to;
    ChangeAdds(text, c, base, base);
    assert text[f..c.to] == [text[f]] + text[f + 1..c.to];
    CountConcat(done, doc[start..], base);
    CountOfMarks(doc[start..], base);
    CountConcat(done, Simultaneous(doc, cs, start), base);
    SimultaneousCount(base, n, cs, start);
  }

  /** Text was gained before: a deletion takes a unit that should have stayed. */
  lemma WrongDeletion(base: int, n: nat, cs: seq<Change>, done: Text, start: nat)
    requires Shifted(base, n, cs, done, start) && |done| > start && cs[0].insert == []
    ensures Wrong(base, n, cs, done, start)
  {
    var text, f := done + Marked(base, n)[start..], cs[0].from;
    EndIsLast(cs, 0);
    if Unmoved(text, cs).Some? {
      assert cs[0].from < cs[0].to;
      var z := text[f];
      if z >= base {
        KeptIsTaken(base, n, cs, done, start);
      } else {
        InsertedIsTaken(base, n, cs, done, start);
      }
      UnmovedAdds(Substitute(text, cs[0]), cs[1..], 0, Max(z, base), base);
    }
  }

  /** The first change of a list is done in place, and the rest of the list is left. */
  lemma FirstDone(doc: Text, cs: seq<Change>, done: Text, start: nat)
    requires cs != [] && Ordered(doc, cs, start) && |done| == start
    ensures var next := done + doc[start..cs[0].from] + cs[0].insert;
      && Substitute(done + doc[start..], cs[0]) == next + doc[cs[0].to..]
      && done + Simultaneous(doc, cs, start) == next + Simultaneous(doc, cs[1..], cs[0].to)
  {
    var c := cs[0];
    var text, kept, rest := done + doc[start..], doc[start..c.from], Simultaneous(doc, cs[1..], c.to);
    assert text[..c.from] == done + kept && text[c.to..] == doc[c.to..];
    Regroup(done, kept, c.insert);
    Regroup(done, kept + c.insert, rest);
  }

  lemma OnceGrows(base: int, n: nat, c: Change, done: Text, start: nat)
    requires start <= c.from <= c.to <= n && Once(done, base, base + start) && Below(c.insert, base)
    ensures Once(done + Marked(base, n)[start..c.from] + c.insert, base, base + c.to)
  {
    assert forall i :: 0 <= i < |c.insert| ==> c.insert[i] in c.insert;
  }

  lemma SeparatedRest(cs: seq<Change>)
    requires Separated(cs) && |cs| > 1
    ensures Separated(cs[1..]) && End(cs[1..]) == End(cs) && cs[0].to < cs[1..][0].from
  {
    assert cs[1..][0] == cs[1] && cs[1..][|cs[1..]| - 1] == cs[|cs| - 1];
  }

  /** The changes before the first that does not keep its length are right; the one after it is not. */
  lemma {:induction false} WrongSomewhere(base: int, n: nat, cs: seq<Change>, done: Text, start: nat)
    requires Separated(cs) && AllBelow(cs, base) && End(cs) < n && !AllButLastKeepLength(cs)
    requires Ordered(Marked(base, n), cs, start)
    requires Once(done, base, base + start) && |done| == start
    ensures Unmoved(done + Marked(base, n)[start..], cs) != Some(done + Simultaneous(Marked(base, n), cs, start))
    decreases |cs|
  {
    var doc, c, rest := Marked(base, n), cs[0], cs[1..];
    var next := done + doc[start..c.from] + c.insert;
    FirstDone(doc, cs, done, start);
    SeparatedRest(cs);
    OnceGrows(base, n, c, done, start);
    if KeepsLength(c) {
      WrongSomewhere(base, n, rest, next, c.to);
    } else {
      assert Shifted(base, n, rest, next, c.to);
      if |next| < c.to {
        WrongAfterLoss(base, n, rest, next, c.to);
      } else if rest[0].insert != [] {
        WrongInsertion(base, n, rest, next, c.to);
      } else {
        WrongDeletion(base, n, rest, next, c.to);
      }
    }
  }

  function Max(a: int, b: int): int { if a < b then b else a }

  function Bound(t: Text): (b: int)
    ensures Below(t, b)
  {
    if t == [] then 0
    else
      assert t == [t[0]] + t[1..];
      Max(Bound(t[1..]), t[0] + 1)
  }

  function BoundAll(cs: seq<Change>): (b: int)
    ensures AllBelow(cs, b)
  {
    if cs == [] then 0
    else
      assert cs == [cs[0]] + cs[1..];
      Max(BoundAll(cs[1..]), Bound(cs[0].insert))
  }

  /** The fallback is right on every text the changes fit exactly when every change but the last keeps its length. */
  lemma FallbackIsRightIff(cs: seq<Change>)
    requires Separated(cs)
    ensures (forall doc: Text :: Ordered(doc, cs, 0) ==> RightFor(doc, cs)) <==> AllButLastKeepLength(cs)
    ensures forall doc: Text :: |doc| >= End(cs) ==> Ordered(doc, cs, 0)
  {
    forall doc: Text | |doc| >= End(cs)
      ensures Ordered(doc, cs, 0)
    {
      SeparatedOrdered(doc, cs, 0);
    }
    if AllButLastKeepLength(cs) {
      forall doc: Text | Ordered(doc, cs, 0)
        ensures RightFor(doc, cs)
      {
        FallbackIsRight(doc, cs, [], 0);
        assert [] + doc[0..] == doc;
        var all := Simultaneous(doc, cs, 0);
        assert [] + all == all;
      }
    } else {
      var base, n := BoundAll(cs), End(cs) + 1;
      var doc := Marked(base, n);
      WrongSomewhere(base, n, cs, [], 0);
      assert [] + doc[0..] == doc;
      var all := Simultaneous(doc, cs, 0);
      assert [] + all == all;
      assert Ordered(doc, cs, 0) && !RightFor(doc, cs);
    }
  }
}
