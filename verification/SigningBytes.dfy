/**
 * The bytes that Marks devices sign, from client/src/auth/protocol.ts.
 *
 * Every message is a domain text and then fields that are fixed-width or 32-bit length
 * prefixed, so one byte string can stand for one message of one kind only.  A text is a
 * sequence of Unicode scalar values, encoded in UTF-8 (section 3 of RFC 3629).
 */
module SigningBytes {
  import opened Sequences
  import opened Wrappers

  // ---------- UTF-8 ----------

  function Utf8Char(c: char): seq<byte>
  {
    var u := c as int;
    if u < 0x80 then [u]
    else if u < 0x800 then [0xC0 + u / 64, 0x80 + u % 64]
    else if u < 0x10000 then [0xE0 + u / 64 / 64, 0x80 + u / 64 % 64, 0x80 + u % 64]
    else [0xF0 + u / 64 / 64 / 64, 0x80 + u / 64 / 64 % 64, 0x80 + u / 64 % 64, 0x80 + u % 64]
  }

  function Utf8(s: string): seq<byte>
  {
    if s == "" then [] else Utf8Char(s[0]) + Utf8(s[1..])
  }

  /** The number of bytes a first byte announces. */
  function Width(b: byte): nat { if b < 0x80 then 1 else if b < 0xE0 then 2 else if b < 0xF0 then 3 else 4 }

  lemma WidthIsLength(c: char)
    ensures |Utf8Char(c)| == Width(Utf8Char(c)[0])
  {
  }

  lemma CharReadsBack(c: char, r1: seq<byte>, d: char, r2: seq<byte>)
    requires Utf8Char(c) + r1 == Utf8Char(d) + r2
    ensures c == d && r1 == r2
  {
    var x, e, f := Utf8Char(c) + r1, Utf8Char(c), Utf8Char(d);
    assert x[0] == e[0] == f[0];
    WidthIsLength(c);
    WidthIsLength(d);
    assert e == x[..|e|] && f == x[..|f|] && r1 == x[|e|..] && r2 == x[|f|..];
    SameBytesSameChar(c, d);
  }

  lemma SameBytesSameChar(c: char, d: char)
    requires Utf8Char(c) == Utf8Char(d)
    ensures c == d
  {
    var u, v := c as int, d as int;
    if |Utf8Char(c)| == 2 {
      assert Utf8Char(c)[1] == Utf8Char(d)[1];
      assert u / 64 == v / 64;
    } else if |Utf8Char(c)| == 3 {
      assert Utf8Char(c)[1] == Utf8Char(d)[1] && Utf8Char(c)[2] == Utf8Char(d)[2];
      assert u / 64 / 64 == v / 64 / 64;
      assert u / 64 == v / 64;
    } else if |Utf8Char(c)| == 4 {
      assert Utf8Char(c)[1] == Utf8Char(d)[1] && Utf8Char(c)[2] == Utf8Char(d)[2] && Utf8Char(c)[3] == Utf8Char(d)[3];
      assert u / 64 / 64 / 64 == v / 64 / 64 / 64;
      assert u / 64 / 64 == v / 64 / 64;
      assert u / 64 == v / 64;
    }
  }

  /** Distinct texts have distinct encodings. */
  lemma {:induction false} Utf8IsInjective(s: string, t: string)
    requires Utf8(s) == Utf8(t)
    ensures s == t
    decreases |s|
  {
    if s != "" && t != "" {
      CharReadsBack(s[0], Utf8(s[1..]), t[0], Utf8(t[1..]));
      Utf8IsInjective(s[1..], t[1..]);
      assert s == [s[0]] + s[1..] && t == [t[0]] + t[1..];
    }
  }

  // ---------- Fields ----------

  datatype Item = Byte(v: int) | Word(v: int) | Long(v: int) | Blob(b: seq<byte>)

  const MAX_U32 := 0xFFFF_FFFF
  const MAX_U64 := 0xFFFF_FFFF_FFFF_FFFF

  /** The writer's own range checks. */
  predicate ValidItem(x: Item)
  {
    match x
    case Byte(v) => 0 <= v < 256
    case Word(v) => 0 <= v <= MAX_U32
    case Long(v) => 0 <= v <= MAX_U64
    case Blob(b) => |b| <= MAX_U32
  }

  function BigEndian(v: nat, n: nat): (r: seq<byte>)
    ensures |r| == n
  {
    if n == 0 then [] else BigEndian(v / 256, n - 1) + [v % 256]
  }

  function ItemBytes(x: Item): seq<byte>
    requires ValidItem(x)
  {
    match x
    case Byte(v) => [v]
    case Word(v) => BigEndian(v, 4)
    case Long(v) => BigEndian(v, 8)
    case Blob(b) => BigEndian(|b|, 4) + b
  }

  function ItemsBytes(xs: seq<Item>): seq<byte>
    requires forall x :: x in xs ==> ValidItem(x)
  {
    if xs == [] then [] else ItemBytes(xs[0]) + ItemsBytes(xs[1..])
  }

  function Pow256(n: nat): nat { if n == 0 then 1 else 256 * Pow256(n - 1) }

  lemma {:induction false} BigEndianIsInjective(v: nat, w: nat, n: nat)
    requires v < Pow256(n) && w < Pow256(n) && BigEndian(v, n) == BigEndian(w, n)
    ensures v == w
    decreases n
  {
    if n > 0 {
      var x := BigEndian(v, n);
      assert x[n - 1] == v % 256 == w % 256;
      assert BigEndian(v / 256, n - 1) == x[..n - 1] == BigEndian(w / 256, n - 1);
      BigEndianIsInjective(v / 256, w / 256, n - 1);
    }
  }

  lemma PowersOf256()
    ensures Pow256(4) == MAX_U32 + 1 && Pow256(8) == MAX_U64 + 1
  {
    assert Pow256(2) == 65536;
    assert Pow256(4) == 256 * (256 * Pow256(2));
    assert Pow256(6) == 256 * (256 * Pow256(4));
    assert Pow256(8) == 256 * (256 * Pow256(6));
  }

  predicate SameShape(x: Item, y: Item)
  {
    x.Byte? == y.Byte? && x.Word? == y.Word? && x.Long? == y.Long?
  }

  lemma FixedReadsBack(v: nat, r1: seq<byte>, w: nat, r2: seq<byte>, n: nat)
    requires v < Pow256(n) && w < Pow256(n) && BigEndian(v, n) + r1 == BigEndian(w, n) + r2
    ensures v == w && r1 == r2
  {
    SameLengthSplit(BigEndian(v, n), r1, BigEndian(w, n), r2);
    BigEndianIsInjective(v, w, n);
  }

  lemma BlobReadsBack(b: seq<byte>, r1: seq<byte>, c: seq<byte>, r2: seq<byte>)
    requires |b| < Pow256(4) && |c| < Pow256(4)
    requires (BigEndian(|b|, 4) + b) + r1 == (BigEndian(|c|, 4) + c) + r2
    ensures b == c && r1 == r2
  {
    Regroup(BigEndian(|b|, 4), b, r1);
    Regroup(BigEndian(|c|, 4), c, r2);
    FixedReadsBack(|b|, b + r1, |c|, c + r2, 4);
    SameLengthSplit(b, r1, c, r2);
  }

  lemma Fits(x: Item)
    requires ValidItem(x)
    ensures match x
      case Byte(_) => true
      case Word(v) => 0 <= v < Pow256(4)
      case Long(v) => 0 <= v < Pow256(8)
      case Blob(b) => |b| < Pow256(4)
  {
    PowersOf256();
  }

  /** A field of known kind ends where its own bytes say. */
  lemma ItemReadsBack(x: Item, r1: seq<byte>, y: Item, r2: seq<byte>)
    requires ValidItem(x) && ValidItem(y) && SameShape(x, y) && ItemBytes(x) + r1 == ItemBytes(y) + r2
    ensures x == y && r1 == r2
  {
    Fits(x);
    Fits(y);
    match x {
      case Blob(b) => BlobReadsBack(b, r1, y.b, r2);
      case Byte(v) =>
        SameLengthSplit([v], r1, [y.v], r2);
        assert [v][0] == [y.v][0];
      case Word(v) => FixedReadsBack(v, r1, y.v, r2, 4);
      case Long(v) => FixedReadsBack(v, r1, y.v, r2, 8);
    }
  }

  lemma {:induction false} ItemsReadBack(xs: seq<Item>, ys: seq<Item>)
    requires |xs| == |ys| && forall i :: 0 <= i < |xs| ==> SameShape(xs[i], ys[i])
    requires (forall x :: x in xs ==> ValidItem(x)) && (forall y :: y in ys ==> ValidItem(y))
    requires ItemsBytes(xs) == ItemsBytes(ys)
    ensures xs == ys
    decreases |xs|
  {
    if xs != [] {
      ItemReadsBack(xs[0], ItemsBytes(xs[1..]), ys[0], ItemsBytes(ys[1..]));
      ItemsReadBack(xs[1..], ys[1..]);
      assert xs == [xs[0]] + xs[1..] && ys == [ys[0]] + ys[1..];
    }
  }

  // ---------- Messages ----------

  datatype Message =
    | DeviceGrant(version: int, principalId: string, controllerId: string, controllerEpoch: int, pairingId: string,
                  scratchId: string, deviceId: string, deviceKeyHash: seq<byte>, capabilities: int,
                  issuedAtMs: int, expiresAtMs: int)
    | ControllerBootstrap(version: int, controllerId: string, controllerDeviceId: string, controllerKeyHash: seq<byte>,
                          pairingId: string, scratchId: string, deviceId: string, deviceKeyHash: seq<byte>,
                          issuedAtMs: int, expiresAtMs: int)
    | SelfBootstrap(version: int, controllerId: string, scratchId: string, deviceId: string, deviceKeyHash: seq<byte>,
                    issuedAtMs: int, expiresAtMs: int)
    | DeviceSessionProof(version: int, challengeId: string, deviceId: string, deviceKeyEpoch: int, audience: string,
                         challenge: seq<byte>, issuedAtMs: int, expiresAtMs: int)

  function Domain(m: Message): string
  {
    match m
    case DeviceGrant(_, _, _, _, _, _, _, _, _, _, _) => "marks-device-grant-v1\0"
    case ControllerBootstrap(_, _, _, _, _, _, _, _, _, _) => "marks-controller-bootstrap-v1\0"
    case SelfBootstrap(_, _, _, _, _, _, _) => "marks-self-bootstrap-v1\0"
    case DeviceSessionProof(_, _, _, _, _, _, _, _) => "marks-device-session-v1\0"
  }

  function TextItem(s: string): Item { Blob(Utf8(s)) }

  /** The fields in the order in which each encoder writes them. */
  function Items(m: Message): seq<Item>
  {
    match m
    case DeviceGrant(version, principalId, controllerId, epoch, pairingId, scratchId, deviceId, hash, caps, issued, expires) =>
      [Byte(version), TextItem(principalId), TextItem(controllerId), Long(epoch), TextItem(pairingId),
       TextItem(scratchId), TextItem(deviceId), Blob(hash), Word(caps), Long(issued), Long(expires)]
    case ControllerBootstrap(version, controllerId, controllerDeviceId, keyHash, pairingId, scratchId, deviceId, hash, issued, expires) =>
      [Byte(version), TextItem(controllerId), TextItem(controllerDeviceId), Blob(keyHash), TextItem(pairingId),
       TextItem(scratchId), TextItem(deviceId), Blob(hash), Long(issued), Long(expires)]
    case SelfBootstrap(version, controllerId, scratchId, deviceId, hash, issued, expires) =>
      [Byte(version), TextItem(controllerId), TextItem(scratchId), TextItem(deviceId), Blob(hash), Long(issued), Long(expires)]
    case DeviceSessionProof(version, challengeId, deviceId, epoch, audience, challenge, issued, expires) =>
      [Byte(version), TextItem(challengeId), TextItem(deviceId), Long(epoch), TextItem(audience), Blob(challenge),
       Long(issued), Long(expires)]
  }

  predicate IsIdChar(c: char)
  {
    'A' <= c <= 'Z' || 'a' <= c <= 'z' || '0' <= c <= '9' || c == '_' || c == '-'
  }

  predicate IsOpaqueId(s: string)
  {
    8 <= |s| <= 128 && forall i :: 0 <= i < |s| ==> IsIdChar(s[i])
  }

  predicate IsOrigin(s: string) { "http://" <= s || "https://" <= s }

  /** The encoders' own assertions. */
  predicate Asserted(m: Message)
  {
    match m
    case DeviceGrant(_, principalId, controllerId, _, pairingId, scratchId, deviceId, hash, caps, _, _) =>
      && IsOpaqueId(principalId) && IsOpaqueId(controllerId) && IsOpaqueId(pairingId) && IsOpaqueId(scratchId)
      && IsOpaqueId(deviceId) && |hash| == 32 && 0 <= caps < 8
    case ControllerBootstrap(_, controllerId, controllerDeviceId, keyHash, pairingId, scratchId, deviceId, hash, _, _) =>
      && IsOpaqueId(controllerId) && IsOpaqueId(controllerDeviceId) && IsOpaqueId(pairingId) && IsOpaqueId(scratchId)
      && IsOpaqueId(deviceId) && |keyHash| == 32 && |hash| == 32
    case SelfBootstrap(_, controllerId, scratchId, deviceId, hash, _, _) =>
      IsOpaqueId(controllerId) && IsOpaqueId(scratchId) && IsOpaqueId(deviceId) && |hash| == 32
    case DeviceSessionProof(_, challengeId, deviceId, _, audience, challenge, _, _) =>
      IsOpaqueId(challengeId) && IsOpaqueId(deviceId) && |challenge| == 32 && IsOrigin(audience)
  }

  predicate Valid(m: Message) { Asserted(m) && forall x :: x in Items(m) ==> ValidItem(x) }

  /** What an encoder returns, or nothing where it throws. */
  function Encode(m: Message): Option<seq<byte>>
  {
    if Valid(m) then Some(Utf8(Domain(m)) + ItemsBytes(Items(m))) else None
  }

  // ---------- One byte string, one message ----------

  function Ascii(s: string): (r: seq<byte>)
    requires forall i :: 0 <= i < |s| ==> s[i] as int < 128
    ensures |r| == |s| && forall i :: 0 <= i < |s| ==> r[i] == s[i] as int
  {
    seq(|s|, i requires 0 <= i < |s| => s[i] as int)
  }

  lemma {:induction false} Utf8OfAscii(s: string)
    requires forall i :: 0 <= i < |s| ==> s[i] as int < 128
    ensures Utf8(s) == Ascii(s)
    decreases |s|
  {
    if s != "" {
      Utf8OfAscii(s[1..]);
      assert Ascii(s) == [s[0] as int] + Ascii(s[1..]);
    }
  }

  /** The kinds of message, in the order of their domain texts. */
  function Kind(m: Message): nat
  {
    match m
    case DeviceGrant(_, _, _, _, _, _, _, _, _, _, _) => 0
    case ControllerBootstrap(_, _, _, _, _, _, _, _, _, _) => 1
    case SelfBootstrap(_, _, _, _, _, _, _) => 2
    case DeviceSessionProof(_, _, _, _, _, _, _, _) => 3
  }

  /** The fourteenth letter of each domain text is its own. */
  function Mark(m: Message): byte
  {
    match Kind(m) case 0 => 103 case 1 => 108 case 2 => 111 case _ => 115
  }

  lemma DomainIsAscii(m: Message)
    ensures |Domain(m)| > 13 && forall i :: 0 <= i < |Domain(m)| ==> Domain(m)[i] as int < 128
  {
  }

  lemma DomainLetter(m: Message)
    ensures |Domain(m)| > 13 && Domain(m)[13] as int == Mark(m)
  {
  }

  lemma DomainMark(m: Message)
    ensures var d := Utf8(Domain(m)); |d| > 13 && |d| == |Domain(m)| && d[13] == Mark(m)
  {
    DomainIsAscii(m);
    DomainLetter(m);
    Utf8OfAscii(Domain(m));
  }

  /** No domain text is a prefix of another. */
  lemma DomainsArePrefixFree(a: Message, r1: seq<byte>, b: Message, r2: seq<byte>)
    requires Utf8(Domain(a)) + r1 == Utf8(Domain(b)) + r2
    ensures Kind(a) == Kind(b) && r1 == r2
  {
    DomainMark(a);
    DomainMark(b);
    var d, e := Utf8(Domain(a)), Utf8(Domain(b));
    assert d[13] == (d + r1)[13] == (e + r2)[13] == e[13];
    SameLengthSplit(d, r1, e, r2);
  }

  lemma SameTexts(s: string, t: string)
    requires TextItem(s) == TextItem(t)
    ensures s == t
  {
    Utf8IsInjective(s, t);
  }

  lemma ShapesAgree(a: Message, b: Message)
    requires Kind(a) == Kind(b)
    ensures |Items(a)| == |Items(b)| && forall i :: 0 <= i < |Items(a)| ==> SameShape(Items(a)[i], Items(b)[i])
  {
  }

  lemma GrantsAgree(a: Message, b: Message)
    requires a.DeviceGrant? && b.DeviceGrant? && Items(a) == Items(b)
    ensures a == b
  {
    var xs, ys := Items(a), Items(b);
    assert xs[0] == ys[0] && xs[3] == ys[3] && xs[7] == ys[7] && xs[8] == ys[8] && xs[9] == ys[9] && xs[10] == ys[10];
    assert xs[1] == ys[1] && xs[2] == ys[2] && xs[4] == ys[4] && xs[5] == ys[5] && xs[6] == ys[6];
    SameTexts(a.principalId, b.principalId);
    SameTexts(a.controllerId, b.controllerId);
    SameTexts(a.pairingId, b.pairingId);
    SameTexts(a.scratchId, b.scratchId);
    SameTexts(a.deviceId, b.deviceId);
  }

  lemma ControllerBootstrapsAgree(a: Message, b: Message)
    requires a.ControllerBootstrap? && b.ControllerBootstrap? && Items(a) == Items(b)
    ensures a == b
  {
    var xs, ys := Items(a), Items(b);
    assert xs[0] == ys[0] && xs[3] == ys[3] && xs[7] == ys[7] && xs[8] == ys[8] && xs[9] == ys[9];
    assert xs[1] == ys[1] && xs[2] == ys[2] && xs[4] == ys[4] && xs[5] == ys[5] && xs[6] == ys[6];
    SameTexts(a.controllerId, b.controllerId);
    SameTexts(a.controllerDeviceId, b.controllerDeviceId);
    SameTexts(a.pairingId, b.pairingId);
    SameTexts(a.scratchId, b.scratchId);
    SameTexts(a.deviceId, b.deviceId);
  }

  lemma SelfBootstrapsAgree(a: Message, b: Message)
    requires a.SelfBootstrap? && b.SelfBootstrap? && Items(a) == Items(b)
    ensures a == b
  {
    var xs, ys := Items(a), Items(b);
    assert xs[0] == ys[0] && xs[4] == ys[4] && xs[5] == ys[5] && xs[6] == ys[6];
    assert xs[1] == ys[1] && xs[2] == ys[2] && xs[3] == ys[3];
    SameTexts(a.controllerId, b.controllerId);
    SameTexts(a.scratchId, b.scratchId);
    SameTexts(a.deviceId, b.deviceId);
  }

  lemma SessionProofsAgree(a: Message, b: Message)
    requires a.DeviceSessionProof? && b.DeviceSessionProof? && Items(a) == Items(b)
    ensures a == b
  {
    var xs, ys := Items(a), Items(b);
    assert xs[0] == ys[0] && xs[3] == ys[3] && xs[5] == ys[5] && xs[6] == ys[6] && xs[7] == ys[7];
    assert xs[1] == ys[1] && xs[2] == ys[2] && xs[4] == ys[4];
    SameTexts(a.challengeId, b.challengeId);
    SameTexts(a.deviceId, b.deviceId);
    SameTexts(a.audience, b.audience);
  }

  /**
   * Signing bytes name one message: no two messages of one kind encode alike, and no
   * output of one encoder is an output of another.
   */
  lemma EncodingIsInjective(a: Message, b: Message)
    requires Encode(a).Some? && Encode(a) == Encode(b)
    ensures a == b
  {
    DomainsArePrefixFree(a, ItemsBytes(Items(a)), b, ItemsBytes(Items(b)));
    ShapesAgree(a, b);
    ItemsReadBack(Items(a), Items(b));
    match Kind(a)
    case 0 => GrantsAgree(a, b);
    case 1 => ControllerBootstrapsAgree(a, b);
    case 2 => SelfBootstrapsAgree(a, b);
    case _ => SessionProofsAgree(a, b);
  }

  // ---------- The writer, updated in place ----------

  function Flat(parts: seq<seq<byte>>): seq<byte>
    decreases |parts|
  {
    if parts == [] then [] else Flat(parts[..|parts| - 1]) + parts[|parts| - 1]
  }

  class CanonicalWriter {
    var parts: seq<seq<byte>>

    constructor ()
      ensures parts == []
    {
      parts := [];
    }

    method BytesWithoutLength(value: seq<byte>)
      modifies this
      ensures Flat(parts) == old(Flat(parts)) + value
    {
      parts := parts + [value];
      assert parts[..|parts| - 1] == old(parts);
    }

    /** Writes one field, or throws when it is out of range. */
    method Put(x: Item) returns (ok: bool)
      modifies this
      ensures ok <==> ValidItem(x)
      ensures ok ==> Flat(parts) == old(Flat(parts)) + ItemBytes(x)
    {
      if !ValidItem(x) {
        return false;
      }
      match x {
        case Byte(v) => BytesWithoutLength([v]);
        case Word(v) => BytesWithoutLength(BigEndian(v, 4));
        case Long(v) => BytesWithoutLength(BigEndian(v, 8));
        case Blob(b) =>
          Regroup(Flat(parts), BigEndian(|b|, 4), b);
          BytesWithoutLength(BigEndian(|b|, 4));
          BytesWithoutLength(b);
      }
      return true;
    }

    /** Copies the parts one after the other into one array. */
    method Finish() returns (output: array<byte>)
      ensures fresh(output) && output[..] == Flat(parts)
    {
      var length := 0;
      for i := 0 to |parts|
        invariant length == |Flat(parts[..i])|
      {
        assert parts[..i + 1][..i] == parts[..i];
        length := length + |parts[i]|;
      }
      assert parts[..|parts|] == parts;
      output := new byte[length](_ => 0);
      var offset := 0;
      for i := 0 to |parts|
        invariant offset == |Flat(parts[..i])| <= output.Length
        invariant output[..offset] == Flat(parts[..i])
      {
        FlatPrefixFits(parts, i + 1);
        assert parts[..i + 1][..i] == parts[..i];
        CopyInto(output, offset, parts[i]);
        offset := offset + |parts[i]|;
      }
      assert output[..] == output[..offset];
    }
  }

  lemma {:induction false} FlatPrefixFits(parts: seq<seq<byte>>, i: nat)
    requires i <= |parts|
    ensures |Flat(parts[..i])| <= |Flat(parts)|
    decreases |parts|
  {
    if i < |parts| {
      assert parts[..|parts| - 1][..i] == parts[..i];
      FlatPrefixFits(parts[..|parts| - 1], i);
    } else {
      assert parts[..i] == parts;
    }
  }

  method CopyInto(output: array<byte>, offset: nat, part: seq<byte>)
    requires offset + |part| <= output.Length
    modifies output
    ensures output[..offset + |part|] == old(output[..offset]) + part
  {
    for k := 0 to |part|
      invariant output[..offset] == old(output[..offset])
      invariant output[offset..offset + k] == part[..k]
    {
      output[offset + k] := part[k];
    }
  }

  lemma OneMoreItem(domain: seq<byte>, items: seq<Item>, i: nat)
    requires i < |items| && ValidItem(items[i]) && forall x :: x in items[..i] ==> ValidItem(x)
    ensures forall x :: x in items[..i + 1] ==> ValidItem(x)
    ensures domain + ItemsBytes(items[..i]) + ItemBytes(items[i]) == domain + ItemsBytes(items[..i + 1])
  {
    assert items[..i + 1] == items[..i] + [items[i]];
    ItemsSnoc(items[..i], items[i]);
    Regroup(domain, ItemsBytes(items[..i]), ItemBytes(items[i]));
  }

  /** Writes each field in turn after a first part; throws at the first one out of range. */
  method PutAll(domain: seq<byte>, items: seq<Item>) returns (r: Option<seq<byte>>)
    ensures r == if forall x :: x in items ==> ValidItem(x) then Some(domain + ItemsBytes(items)) else None
  {
    var writer := new CanonicalWriter();
    writer.BytesWithoutLength(domain);
    assert Flat([]) + domain == domain;
    for i := 0 to |items|
      invariant forall x :: x in items[..i] ==> ValidItem(x)
      invariant Flat(writer.parts) == domain + ItemsBytes(items[..i])
    {
      var ok := writer.Put(items[i]);
      if !ok {
        return None;
      }
      OneMoreItem(domain, items, i);
    }
    assert items[..|items|] == items;
    var output := writer.Finish();
    r := Some(output[..]);
  }

  /** The four encoders: the assertions, and then the domain and the fields through the writer. */
  method EncodeMessage(m: Message) returns (r: Option<seq<byte>>)
    ensures r == Encode(m)
  {
    if !Asserted(m) {
      return None;
    }
    r := PutAll(Utf8(Domain(m)), Items(m));
  }

  lemma {:induction false} ItemsSnoc(xs: seq<Item>, x: Item)
    requires ValidItem(x) && forall y :: y in xs ==> ValidItem(y)
    ensures ItemsBytes(xs + [x]) == ItemsBytes(xs) + ItemBytes(x)
    decreases |xs|
  {
    if xs == [] {
      assert [x][1..] == [];
      assert ItemsBytes([x]) == ItemBytes(x) + [];
    } else {
      assert (xs + [x])[1..] == xs[1..] + [x];
      ItemsSnoc(xs[1..], x);
      Regroup(ItemBytes(xs[0]), ItemsBytes(xs[1..]), ItemBytes(x));
    }
  }
}
