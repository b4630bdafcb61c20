/**
 * The presence wire format of client/src/collab/presence-store.ts: a growable byte
 * writer, a reader that accepts only shortest-form integers, and whole frames.
 *
 * A number is a JavaScript safe integer; the reader's sums and factors are exact up to
 * 2^53 and any larger result fails its safe-integer check, so nat with that check is
 * the same arithmetic.  Texts are byte strings; which of them are UTF-8 or JSON is a
 * parameter.
 */
module PresenceCodec {
  import opened Sequences
  import opened Wrappers

  const MAX_SAFE: nat := 9007199254740991
  const PRESENCE_TAG: byte := 5
  const PROTOCOL_VERSION: byte := 2
  const FLAG_DELETED: byte := 1
  const FLAG_LIVE: byte := 0
  const INSTANCE_BYTES := 16
  const MAX_PRESENCE_BYTES := 65536
  const MAX_PRESENCE_ENTRIES := 256
  const MAX_KEY_BYTES := 256
  const MAX_VALUE_BYTES := 16384

  datatype CodecError = Truncated | Overflow | NotCanonical | Unsupported | BadLength | BadSequence | TooMany | BadText | Trailing

  type Parsed<T> = Result<(T, seq<byte>), CodecError>

  // ---------- Integers ----------

  /** The shortest little-endian base-128 form of a number: what the writer emits. */
  function Uint(v: nat): seq<byte>
  {
    if v < 128 then [v] else [v % 128 + 128] + Uint(v / 128)
  }

  /** The reader's loop, from a partial value and the factor of the next digit. */
  function ReadUintFrom(s: seq<byte>, value: nat, factor: nat, first: bool): Parsed<nat>
    decreases |s|
  {
    if s == [] then Err(Truncated)
    else
      var sum := value + s[0] % 128 * factor;
      if sum > MAX_SAFE then Err(Overflow)
      else if s[0] < 128 then
        if !first && s[0] == 0 then Err(NotCanonical) else Ok((sum, s[1..]))
      else if factor * 128 > MAX_SAFE then Err(Overflow)
      else ReadUintFrom(s[1..], sum, factor * 128, false)
  }

  function ReadUint(s: seq<byte>): Parsed<nat> { ReadUintFrom(s, 0, 1, true) }

  lemma Digit(w: nat, d: nat, f: nat)
    ensures (d + 128 * w) * f == d * f + w * (f * 128)
  {
  }

  lemma AtLeast(w: nat, f: nat)
    requires w > 0
    ensures w * f >= f
  {
  }

  /** Reading from the middle of a number: the digits left stand for w units of the factor. */
  lemma {:induction false} ReadsBack(w: nat, rest: seq<byte>, value: nat, factor: nat, first: bool)
    requires value + w * factor <= MAX_SAFE && (first || w > 0)
    ensures ReadUintFrom(Uint(w) + rest, value, factor, first) == Ok((value + w * factor, rest))
    decreases w
  {
    var s := Uint(w) + rest;
    if w < 128 {
      assert s[1..] == rest;
    } else {
      var d, q := w % 128, w / 128;
      assert w == d + 128 * q;
      Digit(q, d, factor);
      AtLeast(q, factor * 128);
      assert s[1..] == Uint(q) + rest;
      ReadsBack(q, rest, value + d * factor, factor * 128, false);
    }
  }

  /** What the reader accepts is the shortest form of a safe integer, and nothing else. */
  lemma {:induction false} AcceptsOnlyShortest(s: seq<byte>, value: nat, factor: nat, first: bool) returns (w: nat)
    requires ReadUintFrom(s, value, factor, first).Ok?
    ensures first || w > 0
    ensures var (v, rest) := ReadUintFrom(s, value, factor, first).value;
      v == value + w * factor && v <= MAX_SAFE && s == Uint(w) + rest
    decreases |s|
  {
    var rest := ReadUintFrom(s, value, factor, first).value.1;
    if s[0] < 128 {
      w := s[0];
      assert s == [s[0]] + rest;
    } else {
      var d := s[0] - 128;
      var q := AcceptsOnlyShortest(s[1..], value + d * factor, factor * 128, false);
      w := d + 128 * q;
      Digit(q, d, factor);
      assert w % 128 == d && w / 128 == q;
      assert s == [s[0]] + s[1..];
      assert Uint(w) + rest == [s[0]] + (Uint(q) + rest);
    }
  }

  /** Numbers and accepted byte strings correspond one to one. */
  lemma UintRoundTrip(v: nat, rest: seq<byte>)
    requires v <= MAX_SAFE
    ensures ReadUint(Uint(v) + rest) == Ok((v, rest))
  {
    ReadsBack(v, rest, 0, 1, true);
  }

  lemma UintAcceptedIsWritten(s: seq<byte>)
    requires ReadUint(s).Ok?
    ensures var (v, rest) := ReadUint(s).value; v <= MAX_SAFE && s == Uint(v) + rest
  {
    var w := AcceptsOnlyShortest(s, 0, 1, true);
  }

  function Pow128(n: nat): nat { if n == 0 then 1 else 128 * Pow128(n - 1) }

  lemma {:induction false} UintLength(v: nat, n: nat)
    requires v < Pow128(n) && n > 0
    ensures |Uint(v)| <= n
  {
    assert Pow128(1) == 128 * Pow128(0) == 128;
    if v >= 128 {
      assert n > 1;
      UintLength(v / 128, n - 1);
    }
  }

  /** Every safe integer takes at most eight bytes. */
  lemma EightBytesSuffice(v: nat)
    requires v <= MAX_SAFE
    ensures |Uint(v)| <= 8
  {
    assert Pow128(8) == 72057594037927936 by {
      assert Pow128(2) == 16384;
      assert Pow128(4) == 128 * (128 * Pow128(2));
      assert Pow128(6) == 128 * (128 * Pow128(4));
      assert Pow128(8) == 128 * (128 * Pow128(6));
    }
    UintLength(v, 8);
  }

  // ---------- Frames ----------

  /** Which byte strings decode as UTF-8, and which texts parse as JSON. */
  datatype Text = Text(isUtf8: seq<byte> -> bool, isJson: seq<byte> -> bool)

  datatype Entry =
    | Deleted(key: seq<byte>)
    | Live(key: seq<byte>, age: nat, json: seq<byte>)

  datatype Frame = Frame(instance: seq<byte>, sequence: nat, entries: seq<Entry>)

  function StringBytes(b: seq<byte>): seq<byte> { Uint(|b|) + b }

  function TailBytes(e: Entry): seq<byte>
  {
    match e
    case Deleted(_) => [FLAG_DELETED]
    case Live(_, age, json) => [FLAG_LIVE] + (Uint(age) + StringBytes(json))
  }

  function EntryBytes(e: Entry): seq<byte> { StringBytes(e.key) + TailBytes(e) }

  function EntriesBytes(es: seq<Entry>): seq<byte>
  {
    if es == [] then [] else EntryBytes(es[0]) + EntriesBytes(es[1..])
  }

  function BodyBytes(f: Frame): seq<byte>
  {
    Uint(f.sequence) + (Uint(|f.entries|) + EntriesBytes(f.entries))
  }

  /** The layout of a whole frame. */
  function FrameBytes(f: Frame): seq<byte>
  {
    [PRESENCE_TAG, PROTOCOL_VERSION] + (f.instance + BodyBytes(f))
  }

  function ReadRaw(s: seq<byte>, n: nat): Parsed<seq<byte>>
  {
    if n > |s| then Err(Truncated) else Ok((s[..n], s[n..]))
  }

  function ReadBytes(s: seq<byte>, maximum: nat): Parsed<seq<byte>>
  {
    match ReadUint(s)
    case Err(e) => Err(e)
    case Ok((n, rest)) => if n > maximum then Err(BadLength) else ReadRaw(rest, n)
  }

  function ReadString(text: Text, s: seq<byte>, maximum: nat): Parsed<seq<byte>>
  {
    match ReadBytes(s, maximum)
    case Err(e) => Err(e)
    case Ok((b, rest)) => if text.isUtf8(b) then Ok((b, rest)) else Err(BadText)
  }

  function ReadLive(text: Text, key: seq<byte>, s: seq<byte>): Parsed<Entry>
  {
    match ReadUint(s)
    case Err(e) => Err(e)
    case Ok((age, tail)) =>
      match ReadString(text, tail, MAX_VALUE_BYTES)
      case Err(e) => Err(e)
      case Ok((json, rest)) => if text.isJson(json) then Ok((Live(key, age, json), rest)) else Err(BadText)
  }

  function ReadFlags(text: Text, key: seq<byte>, s: seq<byte>): Parsed<Entry>
  {
    if s == [] then Err(Truncated)
    else if s[0] == FLAG_DELETED then Ok((Deleted(key), s[1..]))
    else if s[0] != FLAG_LIVE then Err(Unsupported)
    else ReadLive(text, key, s[1..])
  }

  function ReadEntry(text: Text, s: seq<byte>): Parsed<Entry>
  {
    match ReadString(text, s, MAX_KEY_BYTES)
    case Err(e) => Err(e)
    case Ok((key, rest)) => if key == [] then Err(BadText) else ReadFlags(text, key, rest)
  }

  /** The reader's entry loop: `count` more entries after those already read. */
  function ReadEntries(text: Text, s: seq<byte>, count: nat, read: seq<Entry>): Parsed<seq<Entry>>
    decreases count
  {
    if count == 0 then Ok((read, s))
    else
      match ReadEntry(text, s)
      case Err(e) => Err(e)
      case Ok((entry, rest)) => ReadEntries(text, rest, count - 1, read + [entry])
  }

  function ReadBody(text: Text, instance: seq<byte>, s: seq<byte>): Result<Frame, CodecError>
  {
    match ReadUint(s)
    case Err(e) => Err(e)
    case Ok((sequence, tail)) =>
      if sequence == 0 then Err(BadSequence)
      else
        match ReadUint(tail)
        case Err(e) => Err(e)
        case Ok((count, rest)) =>
          if count > MAX_PRESENCE_ENTRIES then Err(TooMany)
          else
            match ReadEntries(text, rest, count, [])
            case Err(e) => Err(e)
            case Ok((entries, left)) => if left == [] then Ok(Frame(instance, sequence, entries)) else Err(Trailing)
  }

  function DecodeFrame(text: Text, bytes: seq<byte>): Result<Frame, CodecError>
  {
    if bytes == [] || |bytes| > MAX_PRESENCE_BYTES then Err(BadLength)
    else if bytes[0] != PRESENCE_TAG then Err(Unsupported)
    else if |bytes| == 1 then Err(Truncated)
    else if bytes[1] != PROTOCOL_VERSION then Err(Unsupported)
    else
      match ReadRaw(bytes[2..], INSTANCE_BYTES)
      case Err(e) => Err(e)
      case Ok((instance, rest)) => ReadBody(text, instance, rest)
  }

  // ---------- Decoding inverts encoding ----------

  predicate ValidEntry(text: Text, e: Entry)
  {
    && 0 < |e.key| <= MAX_KEY_BYTES && text.isUtf8(e.key)
    && (e.Live? ==> e.age <= MAX_SAFE && |e.json| <= MAX_VALUE_BYTES && text.isUtf8(e.json) && text.isJson(e.json))
  }

  /** What a publication writes, but for the number of its entries. */
  ghost predicate ValidFrame(text: Text, f: Frame)
  {
    && |f.instance| == INSTANCE_BYTES && 0 < f.sequence <= MAX_SAFE
    && (forall e :: e in f.entries ==> ValidEntry(text, e))
    && |FrameBytes(f)| <= MAX_PRESENCE_BYTES
  }

  lemma StringReadsBack(text: Text, b: seq<byte>, rest: seq<byte>, maximum: nat)
    requires |b| <= maximum <= MAX_SAFE && text.isUtf8(b)
    ensures ReadString(text, StringBytes(b) + rest, maximum) == Ok((b, rest))
  {
    Regroup(Uint(|b|), b, rest);
    UintRoundTrip(|b|, b + rest);
    assert (b + rest)[..|b|] == b && (b + rest)[|b|..] == rest;
  }

  lemma EntryReadsBack(text: Text, e: Entry, rest: seq<byte>)
    requires ValidEntry(text, e)
    ensures ReadEntry(text, EntryBytes(e) + rest) == Ok((e, rest))
  {
    Regroup(StringBytes(e.key), TailBytes(e), rest);
    StringReadsBack(text, e.key, TailBytes(e) + rest, MAX_KEY_BYTES);
    var tail := TailBytes(e) + rest;
    match e {
      case Deleted(_) =>
        assert tail[1..] == rest;
      case Live(_, age, json) =>
        Regroup([FLAG_LIVE], Uint(age) + StringBytes(json), rest);
        Regroup(Uint(age), StringBytes(json), rest);
        assert tail[1..] == Uint(age) + (StringBytes(json) + rest);
        UintRoundTrip(age, StringBytes(json) + rest);
        StringReadsBack(text, json, rest, MAX_VALUE_BYTES);
    }
  }

  lemma {:induction false} EntriesReadBack(text: Text, es: seq<Entry>, read: seq<Entry>)
    requires forall e :: e in es ==> ValidEntry(text, e)
    ensures ReadEntries(text, EntriesBytes(es), |es|, read) == Ok((read + es, []))
    decreases |es|
  {
    if es == [] {
      assert read + es == read;
    } else {
      EntryReadsBack(text, es[0], EntriesBytes(es[1..]));
      EntriesReadBack(text, es[1..], read + [es[0]]);
      Regroup(read, [es[0]], es[1..]);
      assert [es[0]] + es[1..] == es;
    }
  }

  lemma BodyReadsBack(text: Text, f: Frame)
    requires 0 < f.sequence <= MAX_SAFE && |f.entries| <= MAX_SAFE
    requires forall e :: e in f.entries ==> ValidEntry(text, e)
    ensures ReadBody(text, f.instance, BodyBytes(f)) == if |f.entries| <= MAX_PRESENCE_ENTRIES then Ok(f) else Err(TooMany)
  {
    UintRoundTrip(f.sequence, Uint(|f.entries|) + EntriesBytes(f.entries));
    UintRoundTrip(|f.entries|, EntriesBytes(f.entries));
    EntriesReadBack(text, f.entries, []);
    assert [] + f.entries == f.entries;
  }

  lemma {:induction false} EntriesLength(es: seq<Entry>)
    ensures |es| <= |EntriesBytes(es)|
  {
    if es != [] {
      EntriesLength(es[1..]);
    }
  }

  /** Decoding inverts publication exactly for frames of at most 256 entries; a larger frame is refused. */
  lemma DecodeInvertsIffFewEntries(text: Text, f: Frame)
    requires ValidFrame(text, f)
    ensures DecodeFrame(text, FrameBytes(f)) == Ok(f) <==> |f.entries| <= MAX_PRESENCE_ENTRIES
    ensures |f.entries| > MAX_PRESENCE_ENTRIES ==> DecodeFrame(text, FrameBytes(f)) == Err(TooMany)
  {
    var bytes, rest := FrameBytes(f), f.instance + BodyBytes(f);
    assert bytes[2..] == rest;
    assert rest[..INSTANCE_BYTES] == f.instance && rest[INSTANCE_BYTES..] == BodyBytes(f);
    EntriesLength(f.entries);
    BodyReadsBack(text, f);
  }

  // ---------- Only encodings are accepted ----------

  lemma StringAccepted(text: Text, s: seq<byte>, maximum: nat)
    requires ReadString(text, s, maximum).Ok?
    ensures var (b, rest) := ReadString(text, s, maximum).value;
      s == StringBytes(b) + rest && |b| <= maximum && text.isUtf8(b)
  {
    UintAcceptedIsWritten(s);
    var (n, tail) := ReadUint(s).value;
    var (b, rest) := ReadString(text, s, maximum).value;
    assert tail == b + rest;
    Regroup(Uint(n), b, rest);
  }

  lemma FlagsAccepted(text: Text, key: seq<byte>, s: seq<byte>)
    requires ReadFlags(text, key, s).Ok?
    ensures var (e, rest) := ReadFlags(text, key, s).value;
      && s == TailBytes(e) + rest && e.key == key
      && (0 < |key| <= MAX_KEY_BYTES && text.isUtf8(key) ==> ValidEntry(text, e))
  {
    var (e, rest) := ReadFlags(text, key, s).value;
    assert s == [s[0]] + s[1..];
    if e.Live? {
      UintAcceptedIsWritten(s[1..]);
      var tail := ReadUint(s[1..]).value.1;
      StringAccepted(text, tail, MAX_VALUE_BYTES);
      Regroup(Uint(e.age), StringBytes(e.json), rest);
      Regroup([FLAG_LIVE], Uint(e.age) + StringBytes(e.json), rest);
    }
  }

  lemma EntryAccepted(text: Text, s: seq<byte>)
    requires ReadEntry(text, s).Ok?
    ensures var (e, rest) := ReadEntry(text, s).value; s == EntryBytes(e) + rest && ValidEntry(text, e)
  {
    StringAccepted(text, s, MAX_KEY_BYTES);
    var (key, tail) := ReadString(text, s, MAX_KEY_BYTES).value;
    FlagsAccepted(text, key, tail);
    var (e, rest) := ReadEntry(text, s).value;
    Regroup(StringBytes(key), TailBytes(e), rest);
  }

  lemma {:induction false} EntriesAccepted(text: Text, s: seq<byte>, count: nat, read: seq<Entry>) returns (es: seq<Entry>)
    requires ReadEntries(text, s, count, read).Ok?
    ensures var (all, rest) := ReadEntries(text, s, count, read).value;
      all == read + es && |es| == count && s == EntriesBytes(es) + rest
    ensures forall e :: e in es ==> ValidEntry(text, e)
    decreases count
  {
    if count == 0 {
      es := [];
    } else {
      EntryAccepted(text, s);
      var (e, tail) := ReadEntry(text, s).value;
      var later := EntriesAccepted(text, tail, count - 1, read + [e]);
      es := [e] + later;
      Regroup(read, [e], later);
      assert es[1..] == later;
      Regroup(EntryBytes(e), EntriesBytes(later), ReadEntries(text, s, count, read).value.1);
    }
  }

  lemma BodyAccepted(text: Text, instance: seq<byte>, s: seq<byte>)
    requires ReadBody(text, instance, s).Ok?
    ensures var f := ReadBody(text, instance, s).value;
      && s == BodyBytes(f) && f.instance == instance && 0 < f.sequence <= MAX_SAFE
      && |f.entries| <= MAX_PRESENCE_ENTRIES && forall e :: e in f.entries ==> ValidEntry(text, e)
  {
    UintAcceptedIsWritten(s);
    var tail := ReadUint(s).value.1;
    UintAcceptedIsWritten(tail);
    var (count, rest) := ReadUint(tail).value;
    var es := EntriesAccepted(text, rest, count, []);
    var f := ReadBody(text, instance, s).value;
    assert [] + es == es && rest == EntriesBytes(f.entries) + [];
    assert EntriesBytes(f.entries) + [] == EntriesBytes(f.entries);
  }

  /** Every accepted byte string is the one encoding of the frame it decodes to. */
  lemma AcceptedFrameIsEncoding(text: Text, bytes: seq<byte>)
    requires DecodeFrame(text, bytes).Ok?
    ensures var f := DecodeFrame(text, bytes).value;
      bytes == FrameBytes(f) && ValidFrame(text, f) && |f.entries| <= MAX_PRESENCE_ENTRIES
  {
    var (instance, rest) := ReadRaw(bytes[2..], INSTANCE_BYTES).value;
    BodyAccepted(text, instance, rest);
    assert bytes[2..] == instance + rest;
    assert bytes == [bytes[0], bytes[1]] + bytes[2..];
  }
}
