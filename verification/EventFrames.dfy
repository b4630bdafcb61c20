/**
 * The incremental frame splitter of client/src/agent/gateway.ts
 * (parseEventStream and eventBoundary).
 *
 * A stream is cut into frames at blank lines.  However the transport divides it
 * into chunks, the frames are the same, provided every frame leaves room for its
 * boundary inside the size limit; the condition is exact.
 */
module EventFrames {
  import opened Sequences
  import opened Wrappers

  const MAX_EVENT_BYTES := 131072

  // ---------- Boundaries ----------

  predicate LfAt(s: string, i: nat)
  {
    i + 2 <= |s| && s[i] == '\n' && s[i + 1] == '\n'
  }

  predicate CrlfAt(s: string, i: nat)
  {
    i + 4 <= |s| && s[i] == '\r' && s[i + 1] == '\n' && s[i + 2] == '\r' && s[i + 3] == '\n'
  }

  /** indexOf for "\n\n", from position i on. */
  function FindLf(s: string, i: nat): (r: Option<nat>)
    requires i <= |s|
    ensures r.Some? ==> r.value + 2 <= |s|
    decreases |s| - i
  {
    if i == |s| then None else if LfAt(s, i) then Some(i) else FindLf(s, i + 1)
  }

  /** indexOf for "\r\n\r\n", from position i on. */
  function FindCrlf(s: string, i: nat): (r: Option<nat>)
    requires i <= |s|
    ensures r.Some? ==> r.value + 4 <= |s|
    decreases |s| - i
  {
    if i == |s| then None else if CrlfAt(s, i) then Some(i) else FindCrlf(s, i + 1)
  }

  lemma {:induction false} FindLfIsFirst(s: string, i: nat)
    requires i <= |s|
    ensures var r := FindLf(s, i);
      && (r.Some? ==> i <= r.value && LfAt(s, r.value) && forall k :: i <= k < r.value ==> !LfAt(s, k))
      && (r.None? ==> forall k :: i <= k ==> !LfAt(s, k))
    decreases |s| - i
  {
    if i < |s| && !LfAt(s, i) {
      FindLfIsFirst(s, i + 1);
    }
  }

  lemma {:induction false} FindCrlfIsFirst(s: string, i: nat)
    requires i <= |s|
    ensures var r := FindCrlf(s, i);
      && (r.Some? ==> i <= r.value && CrlfAt(s, r.value) && forall k :: i <= k < r.value ==> !CrlfAt(s, k))
      && (r.None? ==> forall k :: i <= k ==> !CrlfAt(s, k))
    decreases |s| - i
  {
    if i < |s| && !CrlfAt(s, i) {
      FindCrlfIsFirst(s, i + 1);
    }
  }

  datatype Boundary = Boundary(index: nat, length: nat)

  function EventBoundary(s: string): (r: Option<Boundary>)
    ensures r.Some? ==> r.value.length > 0 && r.value.index + r.value.length <= |s|
  {
    var lf, crlf := FindLf(s, 0), FindCrlf(s, 0);
    if lf.None? && crlf.None? then None
    else if crlf.Some? && (lf.None? || crlf.value < lf.value) then Some(Boundary(crlf.value, 4))
    else Some(Boundary(lf.value, 2))
  }

  /** A boundary of either kind, ending at position e, with none starting before it. */
  ghost predicate FirstBoundary(s: string, b: Boundary)
  {
    && ((b.length == 2 && LfAt(s, b.index)) || (b.length == 4 && CrlfAt(s, b.index)))
    && forall k :: 0 <= k < b.index ==> !LfAt(s, k) && !CrlfAt(s, k)
  }

  lemma BoundaryIsFirst(s: string)
    ensures EventBoundary(s).Some? ==> FirstBoundary(s, EventBoundary(s).value)
    ensures EventBoundary(s).None? ==> forall k: nat :: !LfAt(s, k) && !CrlfAt(s, k)
  {
    FindLfIsFirst(s, 0);
    FindCrlfIsFirst(s, 0);
  }

  lemma FirstBoundaryUnique(s: string, b: Boundary)
    requires FirstBoundary(s, b)
    ensures EventBoundary(s) == Some(b)
  {
    BoundaryIsFirst(s);
    var c := EventBoundary(s).value;
    assert b.index == c.index;
  }

  /** The text t starts with the text s. */
  ghost predicate StartsWith(t: string, s: string)
  {
    |s| <= |t| && forall k :: 0 <= k < |s| ==> t[k] == s[k]
  }

  /**
   * A boundary found in a prefix is the boundary of the whole: were another one to
   * start earlier it would have to straddle the prefix's end and overlap this one,
   * which the characters rule out.
   */
  lemma BoundaryIsStable(s: string, t: string)
    requires StartsWith(t, s) && EventBoundary(s).Some?
    ensures EventBoundary(t) == EventBoundary(s)
  {
    BoundaryIsFirst(s);
    var b := EventBoundary(s).value;
    forall k | 0 <= k < b.index
      ensures !LfAt(t, k) && !CrlfAt(t, k)
    {
      assert !LfAt(s, k) && !CrlfAt(s, k);
    }
    FirstBoundaryUnique(t, b);
  }

  /** Conversely a boundary of the whole that fits in a prefix is the boundary of the prefix. */
  lemma BoundaryInPrefix(s: string, t: string)
    requires StartsWith(t, s) && EventBoundary(t).Some?
    ensures var b := EventBoundary(t).value;
      EventBoundary(s) == if b.index + b.length <= |s| then Some(b) else None
  {
    BoundaryIsFirst(t);
    var b := EventBoundary(t).value;
    if b.index + b.length <= |s| {
      forall k | 0 <= k < b.index
        ensures !LfAt(s, k) && !CrlfAt(s, k)
      {
        assert !LfAt(t, k) && !CrlfAt(t, k);
      }
      FirstBoundaryUnique(s, b);
    } else if EventBoundary(s).Some? {
      BoundaryIsStable(s, t);
      BoundaryIsFirst(s);
    }
  }

  // ---------- Frames of a whole text ----------

  datatype Cut = Cut(frames: seq<string>, rest: string)

  /** All complete frames of a text, and the unterminated remainder. */
  function Frames(s: string): Cut
    decreases |s|
  {
    match EventBoundary(s)
    case None => Cut([], s)
    case Some(b) =>
      var tail := Frames(s[b.index + b.length..]);
      Cut([s[..b.index]] + tail.frames, tail.rest)
  }

  /** Splitting can stop anywhere and resume from the remainder. */
  lemma {:induction false} FramesResume(a: string, b: string)
    ensures var first := Frames(a);
      var second := Frames(first.rest + b);
      Frames(a + b) == Cut(first.frames + second.frames, second.rest)
    decreases |a|
  {
    match EventBoundary(a)
    case None =>
    case Some(x) =>
      BoundaryIsStable(a, a + b);
      var tail := a[x.index + x.length..];
      assert (a + b)[x.index + x.length..] == tail + b;
      assert (a + b)[..x.index] == a[..x.index];
      FramesResume(tail, b);
      var first := Frames(tail);
      Regroup([a[..x.index]], first.frames, Frames(first.rest + b).frames);
  }

  // ---------- Chunk by chunk ----------

  function Utf8Length(c: char): nat
  {
    if c as int < 0x80 then 1 else if c as int < 0x800 then 2 else if c as int < 0x1_0000 then 3 else 4
  }

  /** The size of a text in UTF-8. */
  function ByteLength(s: string): nat
  {
    if s == [] then 0 else ByteLength(s[..|s| - 1]) + Utf8Length(s[|s| - 1])
  }

  lemma {:induction false} PrefixIsShorter(s: string, n: nat)
    requires n <= |s|
    ensures ByteLength(s[..n]) <= ByteLength(s)
  {
    if n < |s| {
      PrefixIsShorter(s[..|s| - 1], n);
      assert s[..|s| - 1][..n] == s[..n];
    } else {
      assert s[..n] == s;
    }
  }

  predicate TooLarge(buffer: string)
  {
    ByteLength(buffer) > MAX_EVENT_BYTES && EventBoundary(buffer).None?
  }

  /** What the splitter has yielded, what it still holds, and whether it gave up. */
  datatype Run = Run(frames: seq<string>, buffer: string, overflow: bool)

  function Feed(chunks: seq<string>, run: Run): Run
  {
    if chunks == [] || run.overflow then run
    else
      var buffer := run.buffer + chunks[0];
      if TooLarge(buffer) then Run(run.frames, buffer, true)
      else
        var cut := Frames(buffer);
        Feed(chunks[1..], Run(run.frames + cut.frames, cut.rest, false))
  }

  function Flat(chunks: seq<string>): string
  {
    if chunks == [] then "" else chunks[0] + Flat(chunks[1..])
  }

  method ParseEventStream(chunks: seq<string>) returns (run: Run)
    ensures run == Feed(chunks, Run([], "", false))
  {
    var frames: seq<string>, buffer, next := [], "", 0;
    while next < |chunks|
      invariant 0 <= next <= |chunks|
      invariant Feed(chunks[next..], Run(frames, buffer, false)) == Feed(chunks, Run([], "", false))
    {
      ghost var ahead := chunks[next..];
      assert ahead[0] == chunks[next] && ahead[1..] == chunks[next + 1..];
      buffer := buffer + chunks[next];
      if TooLarge(buffer) {
        return Run(frames, buffer, true);
      }
      frames, buffer := Drain(frames, buffer);
      next := next + 1;
    }
    run := Run(frames, buffer, false);
  }

  /** The inner loop: yield every complete frame now in the buffer. */
  method Drain(before: seq<string>, held: string) returns (frames: seq<string>, buffer: string)
    ensures frames == before + Frames(held).frames && buffer == Frames(held).rest
  {
    frames, buffer := before, held;
    var boundary := EventBoundary(buffer);
    while boundary.Some?
      invariant boundary == EventBoundary(buffer)
      invariant frames + Frames(buffer).frames == before + Frames(held).frames
      invariant Frames(buffer).rest == Frames(held).rest
      decreases |buffer|
    {
      var b := boundary.value;
      Regroup(frames, [buffer[..b.index]], Frames(buffer[b.index + b.length..]).frames);
      frames := frames + [buffer[..b.index]];
      buffer := buffer[b.index + b.length..];
      boundary := EventBoundary(buffer);
    }
  }

  // ---------- Independence of chunking ----------

  /** Every frame, with all of its boundary but the last character, fits the limit; so does the remainder. */
  predicate Fits(s: string)
    decreases |s|
  {
    match EventBoundary(s)
    case None => ByteLength(s) <= MAX_EVENT_BYTES
    case Some(b) =>
      ByteLength(s[..b.index + b.length - 1]) <= MAX_EVENT_BYTES && Fits(s[b.index + b.length..])
  }

  /** A buffer holding no complete frame of a stream that fits is within the limit. */
  lemma PartialFrameFits(buffer: string, whole: string)
    requires StartsWith(whole, buffer) && Fits(whole) && EventBoundary(buffer).None?
    ensures ByteLength(buffer) <= MAX_EVENT_BYTES
  {
    var enough := match EventBoundary(whole) case None => whole case Some(b) => whole[..b.index + b.length - 1];
    if EventBoundary(whole).Some? {
      BoundaryInPrefix(buffer, whole);
    }
    assert enough[..|buffer|] == buffer;
    PrefixIsShorter(enough, |buffer|);
  }

  /** A buffer that starts a stream that fits is never refused, and what follows its frames fits too. */
  lemma {:induction false} FittingPrefix(buffer: string, more: string)
    requires Fits(buffer + more)
    ensures !TooLarge(buffer)
    ensures Fits(Frames(buffer).rest + more)
    decreases |buffer|
  {
    var whole := buffer + more;
    match EventBoundary(buffer)
    case None => PartialFrameFits(buffer, whole);
    case Some(b) =>
      BoundaryIsStable(buffer, whole);
      var tail := buffer[b.index + b.length..];
      assert whole[b.index + b.length..] == tail + more;
      FittingPrefix(tail, more);
  }

  lemma {:induction false} FeedFitting(chunks: seq<string>, run: Run)
    requires !run.overflow && Fits(run.buffer + Flat(chunks))
    ensures var cut := Frames(run.buffer + Flat(chunks));
      chunks != [] || EventBoundary(run.buffer).None? ==>
        Feed(chunks, run) == Run(run.frames + cut.frames, cut.rest, false)
    decreases |chunks|
  {
    if chunks == [] {
      assert run.buffer + Flat(chunks) == run.buffer;
      assert run.frames + [] == run.frames;
    } else {
      var buffer, more := run.buffer + chunks[0], Flat(chunks[1..]);
      assert run.buffer + Flat(chunks) == buffer + more;
      FittingPrefix(buffer, more);
      FramesResume(buffer, more);
      var cut := Frames(buffer);
      RestHasNoBoundary(buffer);
      var next := Run(run.frames + cut.frames, cut.rest, false);
      FeedFitting(chunks[1..], next);
      Regroup(run.frames, cut.frames, Frames(cut.rest + more).frames);
    }
  }

  lemma {:induction false} RestHasNoBoundary(s: string)
    ensures EventBoundary(Frames(s).rest).None?
    decreases |s|
  {
    match EventBoundary(s)
    case None =>
    case Some(b) =>
      RestHasNoBoundary(s[b.index + b.length..]);
  }

  /** A division that makes the splitter give up on a stream that does not fit. */
  function Unlucky(s: string): seq<string>
    decreases |s|
  {
    match EventBoundary(s)
    case None => [s]
    case Some(b) =>
      var last := b.index + b.length - 1;
      if ByteLength(s[..last]) > MAX_EVENT_BYTES then [s[..last], s[last..]]
      else [s[..last + 1]] + Unlucky(s[last + 1..])
  }

  lemma {:induction false} UnluckyOverflows(s: string, done: seq<string>)
    requires !Fits(s)
    ensures Flat(Unlucky(s)) == s
    ensures Feed(Unlucky(s), Run(done, "", false)).overflow
    decreases |s|
  {
    var chunks := Unlucky(s);
    assert "" + chunks[0] == chunks[0];
    match EventBoundary(s)
    case None =>
      assert Flat([s]) == s;
    case Some(b) =>
      var last := b.index + b.length - 1;
      assert s == s[..last] + s[last..] && s == s[..last + 1] + s[last + 1..];
      if ByteLength(s[..last]) > MAX_EVENT_BYTES {
        BoundaryInPrefix(s[..last], s);
        assert TooLarge(chunks[0]);
        assert chunks[1..] == [s[last..]];
        assert Flat(chunks[1..]) == s[last..] + "";
      } else {
        var frame, tail := s[..last + 1], s[last + 1..];
        BoundaryInPrefix(frame, s);
        assert frame[b.index + b.length..] == "";
        assert Frames(frame) == Cut([frame[..b.index]] + [], "");
        assert chunks[1..] == Unlucky(tail);
        UnluckyOverflows(tail, done + Frames(frame).frames);
      }
  }

  /**
   * Chunking never matters, exactly for the streams that fit: then every division
   * yields the frames of the whole, and otherwise some division is refused.
   */
  lemma ChunkingIsIrrelevantIffFits(s: string)
    ensures Fits(s) <==>
      forall chunks: seq<string> :: Flat(chunks) == s ==>
        Feed(chunks, Run([], "", false)) == Run(Frames(s).frames, Frames(s).rest, false)
  {
    if Fits(s) {
      forall chunks: seq<string> | Flat(chunks) == s
        ensures Feed(chunks, Run([], "", false)) == Run(Frames(s).frames, Frames(s).rest, false)
      {
        assert "" + Flat(chunks) == s;
        FeedFitting(chunks, Run([], "", false));
        assert [] + Frames(s).frames == Frames(s).frames;
      }
    } else {
      UnluckyOverflows(s, []);
      assert Flat(Unlucky(s)) == s;
    }
  }
}
