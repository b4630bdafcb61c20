/**
 * The presence writer and reader as they run: a buffer that doubles up to 64 KiB, and
 * an offset that moves through the bytes received.  Both are proved to do exactly what
 * PresenceCodec.dfy says.  A throw is a failed result.
 */
module PresenceBuffers {
  import opened Sequences
  import opened Wrappers
  import opened PresenceCodec

  const INITIAL_BYTES := 256

  class Writer {
    var buffer: array<byte>
    var length: nat

    ghost predicate Valid()
      reads this, buffer
    {
      length <= buffer.Length && INITIAL_BYTES <= buffer.Length <= MAX_PRESENCE_BYTES
    }

    ghost function Contents(): seq<byte>
      requires Valid()
      reads this, buffer
    {
      buffer[..length]
    }

    constructor ()
      ensures Valid() && fresh(buffer) && Contents() == []
    {
      buffer := new byte[INITIAL_BYTES](_ => 0);
      length := 0;
    }

    /** The chunk was appended, whatever the buffer's history, exactly when it fits in 64 KiB. */
    twostate predicate Wrote(ok: bool, chunk: seq<byte>)
      requires old(Valid())
      reads this, buffer
    {
      && Valid() && (buffer == old(buffer) || fresh(buffer))
      && (ok <==> |old(Contents())| + |chunk| <= MAX_PRESENCE_BYTES)
      && (ok ==> Contents() == old(Contents()) + chunk)
    }

    method Grow(extra: nat) returns (ok: bool)
      requires Valid()
      modifies this`buffer
      ensures Valid() && Contents() == old(Contents()) && (buffer == old(buffer) || fresh(buffer))
      ensures ok <==> length + extra <= MAX_PRESENCE_BYTES
      ensures ok ==> length + extra <= buffer.Length
    {
      var required := length + extra;
      if required > MAX_PRESENCE_BYTES {
        return false;
      }
      if required <= buffer.Length {
        return true;
      }
      var next := buffer.Length;
      while next < required
        invariant buffer.Length <= next <= MAX_PRESENCE_BYTES
        decreases MAX_PRESENCE_BYTES - next
      {
        next := if next * 2 < MAX_PRESENCE_BYTES then next * 2 else MAX_PRESENCE_BYTES;
      }
      var grown := new byte[next](_ => 0);
      for i := 0 to length
        invariant forall k :: 0 <= k < i ==> grown[k] == buffer[k]
        modifies grown
      {
        grown[i] := buffer[i];
      }
      assert grown[..length] == buffer[..length];
      buffer := grown;
      return true;
    }

    method U8(value: byte) returns (ok: bool)
      requires Valid()
      modifies this, buffer
      ensures Wrote(ok, [value])
    {
      ok := Grow(1);
      if ok {
        buffer[length] := value;
        length := length + 1;
      }
    }

    method PutUint(value: int) returns (ok: bool)
      requires Valid()
      modifies this, buffer
      ensures Valid() && (buffer == old(buffer) || fresh(buffer))
      ensures 0 <= value <= MAX_SAFE ==> Wrote(ok, Uint(value))
      ensures !(0 <= value <= MAX_SAFE) ==> !ok
    {
      if value < 0 || value > MAX_SAFE {
        return false;
      }
      var left: nat := value;
      ghost var written: seq<byte> := [];
      while true
        invariant Valid() && (buffer == old(buffer) || fresh(buffer))
        invariant Contents() == old(Contents()) + written
        invariant Uint(value) == written + Uint(left)
        decreases left
      {
        var digit := left % 128;
        var last := left < 128;
        ghost var rest := if last then [] else Uint(left / 128);
        assert Uint(left) == [if last then digit else digit + 128] + rest;
        Regroup(written, [if last then digit else digit + 128], rest);
        left := left / 128;
        ok := U8(if left > 0 then digit + 128 else digit);
        if !ok {
          return;
        }
        written := written + [if last then digit else digit + 128];
        if left == 0 {
          break;
        }
      }
    }

    method Raw(value: seq<byte>) returns (ok: bool)
      requires Valid()
      modifies this, buffer
      ensures Wrote(ok, value)
    {
      ok := Grow(|value|);
      if ok {
        for i := 0 to |value|
          invariant buffer[..length] == old(Contents())
          invariant forall k :: 0 <= k < i ==> buffer[length + k] == value[k]
          modifies buffer
        {
          buffer[length + i] := value[i];
        }
        length := length + |value|;
      }
    }

    /** A length-prefixed field, refused when it is over its own limit. */
    method Bytes(value: seq<byte>, maximum: nat) returns (ok: bool)
      requires Valid() && maximum <= MAX_SAFE
      modifies this, buffer
      ensures Valid() && (buffer == old(buffer) || fresh(buffer))
      ensures |value| > maximum ==> !ok
      ensures |value| <= maximum ==> Wrote(ok, StringBytes(value))
    {
      if |value| > maximum {
        return false;
      }
      ok := PutUint(|value|);
      if !ok {
        return;
      }
      ghost var prefix := Contents();
      ok := Raw(value);
      Regroup(old(Contents()), Uint(|value|), value);
    }
  }

  /** Each field is within its own limit. */
  predicate FieldsFit(e: Entry)
  {
    |e.key| <= MAX_KEY_BYTES && (e.Live? ==> e.age <= MAX_SAFE && |e.json| <= MAX_VALUE_BYTES)
  }

  ghost predicate Publishable(f: Frame)
  {
    && f.sequence <= MAX_SAFE && |f.entries| <= MAX_SAFE
    && (forall e :: e in f.entries ==> FieldsFit(e))
    && |FrameBytes(f)| <= MAX_PRESENCE_BYTES
  }

  method PutTail(writer: Writer, e: Entry) returns (ok: bool)
    requires writer.Valid() && |e.key| <= MAX_KEY_BYTES
    modifies writer, writer.buffer
    ensures writer.Valid() && (writer.buffer == old(writer.buffer) || fresh(writer.buffer))
    ensures FieldsFit(e) ==> writer.Wrote(ok, TailBytes(e))
    ensures !FieldsFit(e) ==> !ok
  {
    ghost var before := writer.Contents();
    match e {
      case Deleted(_) =>
        ok := writer.U8(FLAG_DELETED);
      case Live(_, age, json) =>
        Regroup(before, [FLAG_LIVE], Uint(age) + StringBytes(json));
        Regroup(before + [FLAG_LIVE], Uint(age), StringBytes(json));
        ok := writer.U8(FLAG_LIVE);
        if ok {
          ok := writer.PutUint(age);
        }
        if ok {
          ok := writer.Bytes(json, MAX_VALUE_BYTES);
        }
    }
  }

  method PutEntry(writer: Writer, e: Entry) returns (ok: bool)
    requires writer.Valid()
    modifies writer, writer.buffer
    ensures writer.Valid() && (writer.buffer == old(writer.buffer) || fresh(writer.buffer))
    ensures FieldsFit(e) ==> writer.Wrote(ok, EntryBytes(e))
    ensures !FieldsFit(e) ==> !ok
  {
    Regroup(writer.Contents(), StringBytes(e.key), TailBytes(e));
    ok := writer.Bytes(e.key, MAX_KEY_BYTES);
    if ok {
      ok := PutTail(writer, e);
    }
  }

  lemma Shift<T>(done: seq<T>, chunk: seq<T>, rest: seq<T>, total: seq<T>)
    requires done + (chunk + rest) == total
    ensures (done + chunk) + rest == total && |done| + |chunk| <= |total|
  {
    Regroup(done, chunk, rest);
  }

  method PutPrologue(writer: Writer, instance: seq<byte>) returns (ok: bool)
    requires writer.Valid() && writer.Contents() == []
    modifies writer, writer.buffer
    ensures writer.Wrote(ok, [PRESENCE_TAG, PROTOCOL_VERSION] + instance)
  {
    ok := writer.U8(PRESENCE_TAG);
    ok := writer.U8(PROTOCOL_VERSION);
    assert writer.Contents() == [PRESENCE_TAG, PROTOCOL_VERSION];
    ok := writer.Raw(instance);
  }

  method PutCounts(writer: Writer, sequence: nat, count: nat) returns (ok: bool)
    requires writer.Valid()
    modifies writer, writer.buffer
    ensures writer.Valid() && (writer.buffer == old(writer.buffer) || fresh(writer.buffer))
    ensures sequence <= MAX_SAFE && count <= MAX_SAFE ==> writer.Wrote(ok, Uint(sequence) + Uint(count))
    ensures sequence > MAX_SAFE || count > MAX_SAFE ==> !ok
  {
    Regroup(writer.Contents(), Uint(sequence), Uint(count));
    ok := writer.PutUint(sequence);
    if ok {
      ok := writer.PutUint(count);
    }
  }

  function HeaderBytes(f: Frame): seq<byte>
  {
    ([PRESENCE_TAG, PROTOCOL_VERSION] + f.instance) + (Uint(f.sequence) + Uint(|f.entries|))
  }

  lemma HeaderThenEntries(f: Frame)
    ensures FrameBytes(f) == HeaderBytes(f) + EntriesBytes(f.entries)
  {
    var tags, entries := [PRESENCE_TAG, PROTOCOL_VERSION], EntriesBytes(f.entries);
    Regroup(tags, f.instance, BodyBytes(f));
    Regroup(Uint(f.sequence), Uint(|f.entries|), entries);
    Regroup(tags + f.instance, Uint(f.sequence) + Uint(|f.entries|), entries);
  }

  method PutHeader(writer: Writer, f: Frame) returns (ok: bool)
    requires writer.Valid() && writer.Contents() == []
    modifies writer, writer.buffer
    ensures writer.Valid() && (writer.buffer == old(writer.buffer) || fresh(writer.buffer))
    ensures f.sequence <= MAX_SAFE && |f.entries| <= MAX_SAFE ==> writer.Wrote(ok, HeaderBytes(f))
    ensures f.sequence > MAX_SAFE || |f.entries| > MAX_SAFE ==> !ok
  {
    ok := PutPrologue(writer, f.instance);
    if ok {
      ok := PutCounts(writer, f.sequence, |f.entries|);
    }
  }

  /** Writes the entries from one on, until one does not fit. */
  method PutEntries(writer: Writer, es: seq<Entry>) returns (ok: bool)
    requires writer.Valid()
    modifies writer, writer.buffer
    ensures writer.Valid() && (writer.buffer == old(writer.buffer) || fresh(writer.buffer))
    ensures (forall e :: e in es ==> FieldsFit(e)) ==> writer.Wrote(ok, EntriesBytes(es))
    ensures !(forall e :: e in es ==> FieldsFit(e)) ==> !ok
  {
    ghost var total := writer.Contents() + EntriesBytes(es);
    ok := true;
    for i := 0 to |es|
      invariant ok && writer.Valid() && (writer.buffer == old(writer.buffer) || fresh(writer.buffer))
      invariant forall j :: 0 <= j < i ==> FieldsFit(es[j])
      invariant writer.Contents() + EntriesBytes(es[i..]) == total
    {
      Shift(writer.Contents(), EntryBytes(es[i]), EntriesBytes(es[i + 1..]), total);
      ok := PutEntry(writer, es[i]);
      if !ok {
        return;
      }
    }
    assert writer.Contents() == total;
  }

  /** Writes a whole frame, or throws when a field or the frame is over its limit. */
  method Encode(f: Frame) returns (r: Option<seq<byte>>)
    ensures r == if Publishable(f) then Some(FrameBytes(f)) else None
  {
    HeaderThenEntries(f);
    var writer := new Writer();
    var ok := PutHeader(writer, f);
    if !ok {
      return None;
    }
    assert writer.Contents() == HeaderBytes(f);
    ok := PutEntries(writer, f.entries);
    if !ok {
      return None;
    }
    r := Some(writer.buffer[..writer.length]);
  }

  class Reader {
    const buffer: seq<byte>
    var offset: nat

    ghost predicate Valid()
      reads this
    {
      offset <= |buffer|
    }

    ghost function Rest(): seq<byte>
      requires Valid()
      reads this
    {
      buffer[offset..]
    }

    constructor (bytes: seq<byte>)
      ensures Valid() && Rest() == bytes
    {
      buffer, offset := bytes, 0;
    }

    /** The call returned what the parser says, and left what the parser leaves. */
    ghost predicate Took<T>(parsed: Parsed<T>, r: Result<T, CodecError>)
      reads this
    {
      && Valid()
      && match parsed
         case Err(e) => r == Err(e)
         case Ok((value, rest)) => r == Ok(value) && Rest() == rest
    }

    method U8() returns (r: Result<byte, CodecError>)
      requires Valid()
      modifies this
      ensures Valid()
      ensures r == if old(Rest()) == [] then Err(Truncated) else Ok(old(Rest())[0])
      ensures r.Ok? ==> Rest() == old(Rest())[1..] && offset == old(offset) + 1
    {
      if offset >= |buffer| {
        return Err(Truncated);
      }
      r := Ok(buffer[offset]);
      offset := offset + 1;
    }

    method GetUint() returns (r: Result<nat, CodecError>)
      requires Valid()
      modifies this
      ensures Took(ReadUint(old(Rest())), r)
    {
      var value: nat, factor: nat, encodedBytes: nat := 0, 1, 0;
      while true
        invariant Valid()
        invariant ReadUintFrom(Rest(), value, factor, encodedBytes == 0) == ReadUint(old(Rest()))
        decreases |buffer| - offset
      {
        var next := U8();
        if next.Err? {
          return Err(next.error);
        }
        encodedBytes := encodedBytes + 1;
        value := value + next.value % 128 * factor;
        if value > MAX_SAFE {
          return Err(Overflow);
        }
        if next.value < 128 {
          if encodedBytes > 1 && next.value == 0 {
            return Err(NotCanonical);
          }
          return Ok(value);
        }
        factor := factor * 128;
        if factor > MAX_SAFE {
          return Err(Overflow);
        }
      }
    }

    method Raw(length: nat) returns (r: Result<seq<byte>, CodecError>)
      requires Valid()
      modifies this
      ensures Took(ReadRaw(old(Rest()), length), r)
    {
      if offset + length > |buffer| {
        return Err(Truncated);
      }
      r := Ok(buffer[offset..offset + length]);
      assert buffer[offset..][..length] == r.value && buffer[offset..][length..] == buffer[offset + length..];
      offset := offset + length;
    }

    method GetString(text: Text, maximum: nat) returns (r: Result<seq<byte>, CodecError>)
      requires Valid()
      modifies this
      ensures Took(ReadString(text, old(Rest()), maximum), r)
    {
      var length := GetUint();
      if length.Err? {
        return Err(length.error);
      }
      if length.value > maximum {
        return Err(BadLength);
      }
      r := Raw(length.value);
      if r.Ok? && !text.isUtf8(r.value) {
        r := Err(BadText);
      }
    }

    method GetEntry(text: Text) returns (r: Result<Entry, CodecError>)
      requires Valid()
      modifies this
      ensures Took(ReadEntry(text, old(Rest())), r)
    {
      var key := GetString(text, MAX_KEY_BYTES);
      if key.Err? {
        return Err(key.error);
      }
      if key.value == [] {
        return Err(BadText);
      }
      var flags := U8();
      if flags.Err? {
        return Err(flags.error);
      }
      if flags.value == FLAG_DELETED {
        return Ok(Deleted(key.value));
      }
      if flags.value != FLAG_LIVE {
        return Err(Unsupported);
      }
      r := GetLive(text, key.value);
    }

    method GetLive(text: Text, key: seq<byte>) returns (r: Result<Entry, CodecError>)
      requires Valid()
      modifies this
      ensures Took(ReadLive(text, key, old(Rest())), r)
    {
      var age := GetUint();
      if age.Err? {
        return Err(age.error);
      }
      var json := GetString(text, MAX_VALUE_BYTES);
      if json.Err? {
        return Err(json.error);
      }
      if !text.isJson(json.value) {
        return Err(BadText);
      }
      return Ok(Live(key, age.value, json.value));
    }

    method GetEntries(text: Text, count: nat) returns (r: Result<seq<Entry>, CodecError>)
      requires Valid()
      modifies this
      ensures Took(ReadEntries(text, old(Rest()), count, []), r)
    {
      var entries: seq<Entry> := [];
      for index := 0 to count
        invariant Valid()
        invariant ReadEntries(text, Rest(), count - index, entries) == ReadEntries(text, old(Rest()), count, [])
      {
        var entry := GetEntry(text);
        if entry.Err? {
          return Err(entry.error);
        }
        entries := entries + [entry.value];
      }
      return Ok(entries);
    }

    method GetBody(text: Text, instance: seq<byte>) returns (r: Result<Frame, CodecError>)
      requires Valid()
      modifies this
      ensures r == ReadBody(text, instance, old(Rest()))
    {
      var sequence := GetUint();
      if sequence.Err? {
        return Err(sequence.error);
      }
      if sequence.value == 0 {
        return Err(BadSequence);
      }
      var count := GetUint();
      if count.Err? {
        return Err(count.error);
      }
      if count.value > MAX_PRESENCE_ENTRIES {
        return Err(TooMany);
      }
      var entries := GetEntries(text, count.value);
      if entries.Err? {
        return Err(entries.error);
      }
      if offset != |buffer| {
        return Err(Trailing);
      }
      return Ok(Frame(instance, sequence.value, entries.value));
    }
  }

  /** Reads one whole frame from its bytes. */
  method Decode(text: Text, bytes: seq<byte>) returns (r: Result<Frame, CodecError>)
    ensures r == DecodeFrame(text, bytes)
    ensures r.Ok? ==> bytes == FrameBytes(r.value)
  {
    if bytes == [] || |bytes| > MAX_PRESENCE_BYTES {
      return Err(BadLength);
    }
    var reader := new Reader(bytes);
    var tag := reader.U8();
    if tag.value != PRESENCE_TAG {
      return Err(Unsupported);
    }
    var version := reader.U8();
    if version.Err? {
      return Err(version.error);
    }
    if version.value != PROTOCOL_VERSION {
      return Err(Unsupported);
    }
    var instance := reader.Raw(INSTANCE_BYTES);
    if instance.Err? {
      return Err(instance.error);
    }
    r := reader.GetBody(text, instance.value);
    if r.Ok? {
      AcceptedFrameIsEncoding(text, bytes);
    }
  }
}
