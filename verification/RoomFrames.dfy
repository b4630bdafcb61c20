/**
 * The mutation and receipt frames of client/src/collab/protocol.ts, through which a
 * mutation keeps its identity between the page, the server and the journal.
 */
module RoomFrames {
  import Journal
  import opened Sequences
  import opened Wrappers
  import opened SigningBytes

  const MUTATION_MAGIC: seq<byte> := [0x4d, 0x4b, 0x4d, 0x54]
  const COMMITTED_MAGIC: seq<byte> := [0x4d, 0x4b, 0x43, 0x4d]
  const PROTOCOL_VERSION: byte := 1
  const COMMITTED_HEADER_BYTES := 33

  type MutationKind = Journal.MutationKind
  datatype Receipt = Receipt(id: string, revision: nat, version: seq<byte>)

  // ---------- Hexadecimal ids ----------

  predicate IsHexDigit(c: char) { '0' <= c <= '9' || 'a' <= c <= 'f' }

  function DigitValue(c: char): int
    requires IsHexDigit(c)
  {
    if c <= '9' then c as int - 48 else c as int - 87
  }

  function HexDigit(v: int): char
    requires 0 <= v < 16
  {
    if v < 10 then (48 + v) as char else (87 + v) as char
  }

  predicate IsHex(s: string) { forall i :: 0 <= i < |s| ==> IsHexDigit(s[i]) }

  function HexToBytes(s: string): seq<byte>
    requires IsHex(s)
  {
    if |s| < 2 then [] else [DigitValue(s[0]) * 16 + DigitValue(s[1])] + HexToBytes(s[2..])
  }

  function BytesToHex(b: seq<byte>): string
  {
    if b == [] then "" else [HexDigit(b[0] / 16), HexDigit(b[0] % 16)] + BytesToHex(b[1..])
  }

  lemma {:induction false} HexReadsBack(s: string)
    requires IsHex(s) && |s| % 2 == 0
    ensures BytesToHex(HexToBytes(s)) == s && |HexToBytes(s)| * 2 == |s|
    decreases |s|
  {
    if |s| >= 2 {
      HexReadsBack(s[2..]);
      assert s == [s[0], s[1]] + s[2..];
      assert HexToBytes(s)[1..] == HexToBytes(s[2..]);
    }
  }

  lemma {:induction false} BytesReadBack(b: seq<byte>)
    ensures IsHex(BytesToHex(b)) && |BytesToHex(b)| == 2 * |b| && HexToBytes(BytesToHex(b)) == b
    decreases |b|
  {
    if b != [] {
      var s, rest := BytesToHex(b), BytesToHex(b[1..]);
      BytesReadBack(b[1..]);
      assert s[2..] == rest;
      assert forall i :: 2 <= i < |s| ==> s[i] == rest[i - 2];
      assert DigitValue(s[0]) == b[0] / 16 && DigitValue(s[1]) == b[0] % 16;
      assert b == [b[0]] + b[1..];
    }
  }

  /** A nonzero 128-bit id in lower-case hexadecimal. */
  predicate IsMutationId(s: string)
  {
    |s| == 32 && IsHex(s) && exists i :: 0 <= i < |s| && s[i] != '0'
  }

  // ---------- Little-endian integers ----------

  function Little(v: nat, n: nat): (r: seq<byte>)
    ensures |r| == n
  {
    if n == 0 then [] else [v % 256] + Little(v / 256, n - 1)
  }

  function FromLittle(b: seq<byte>): nat
  {
    if b == [] then 0 else b[0] + 256 * FromLittle(b[1..])
  }

  lemma {:induction false} LittleReadsBack(v: nat, n: nat)
    requires v < Pow256(n)
    ensures FromLittle(Little(v, n)) == v
    decreases n
  {
    if n > 0 {
      LittleReadsBack(v / 256, n - 1);
      assert Little(v, n)[1..] == Little(v / 256, n - 1);
    }
  }

  lemma {:induction false} FromLittleReadsBack(b: seq<byte>)
    ensures FromLittle(b) < Pow256(|b|) && Little(FromLittle(b), |b|) == b
    decreases |b|
  {
    if b != [] {
      FromLittleReadsBack(b[1..]);
      var v := FromLittle(b);
      assert v % 256 == b[0] && v / 256 == FromLittle(b[1..]);
      assert b == [b[0]] + b[1..];
    }
  }

  // ---------- Mutations ----------

  function KindByte(kind: MutationKind): byte { if kind.Update? then 1 else 2 }

  function MutationHeader(id: string, kind: MutationKind, length: nat): seq<byte>
    requires IsHex(id)
  {
    MUTATION_MAGIC + [PROTOCOL_VERSION, KindByte(kind)] + (HexToBytes(id) + Little(length, 4))
  }

  /** encodeMutation's frame, or nothing where it throws. */
  function Mutation(id: string, kind: MutationKind, payload: seq<byte>): Option<seq<byte>>
  {
    if !IsMutationId(id) || payload == [] || |payload| > MAX_U32 then None
    else Some(MutationHeader(id, kind, |payload|) + payload)
  }

  lemma HeaderLength(id: string, kind: MutationKind, length: nat)
    requires IsMutationId(id)
    ensures |MutationHeader(id, kind, length)| == 26
  {
    HexReadsBack(id);
  }

  lemma HeadersAgree(a: string, ka: MutationKind, n: nat, b: string, kb: MutationKind, m: nat)
    requires IsMutationId(a) && IsMutationId(b) && MutationHeader(a, ka, n) == MutationHeader(b, kb, m)
    ensures a == b && ka == kb
  {
    HexReadsBack(a);
    HexReadsBack(b);
    var x := MutationHeader(a, ka, n);
    assert x[5] == KindByte(ka) && x[5] == KindByte(kb);
    SameLengthSplit(MUTATION_MAGIC + [PROTOCOL_VERSION, KindByte(ka)], HexToBytes(a) + Little(n, 4),
                    MUTATION_MAGIC + [PROTOCOL_VERSION, KindByte(kb)], HexToBytes(b) + Little(m, 4));
    SameLengthSplit(HexToBytes(a), Little(n, 4), HexToBytes(b), Little(m, 4));
  }

  /** A frame names one mutation: its id, its kind and its payload. */
  lemma MutationIsInjective(a: string, ka: MutationKind, p: seq<byte>, b: string, kb: MutationKind, q: seq<byte>)
    requires Mutation(a, ka, p).Some? && Mutation(a, ka, p) == Mutation(b, kb, q)
    ensures a == b && ka == kb && p == q
  {
    HeaderLength(a, ka, |p|);
    HeaderLength(b, kb, |q|);
    SameLengthSplit(MutationHeader(a, ka, |p|), p, MutationHeader(b, kb, |q|), q);
    HeadersAgree(a, ka, |p|, b, kb, |q|);
  }

  /** Writes a frame into one fresh array. */
  method EncodeMutation(id: string, kind: MutationKind, payload: seq<byte>) returns (out: Option<seq<byte>>)
    ensures out == Mutation(id, kind, payload)
  {
    if !IsMutationId(id) || |payload| == 0 || |payload| > MAX_U32 {
      return None;
    }
    HeaderLength(id, kind, |payload|);
    var header := MutationHeader(id, kind, |payload|);
    var buffer := new byte[26 + |payload|](_ => 0);
    CopyInto(buffer, 0, header);
    assert buffer[..26] == header;
    CopyInto(buffer, 26, payload);
    assert buffer[..26 + |payload|] == buffer[..];
    out := Some(buffer[..]);
  }

  // ---------- Receipts ----------

  /** The layout of a receipt. */
  function ReceiptBytes(r: Receipt): seq<byte>
    requires IsHex(r.id)
  {
    COMMITTED_MAGIC + [PROTOCOL_VERSION]
      + (HexToBytes(r.id) + (Little(r.revision, 8) + (Little(|r.version|, 4) + r.version)))
  }

  predicate IsReceipt(r: Receipt)
  {
    |r.id| == 32 && IsHex(r.id) && r.revision <= MAX_U64 && |r.version| <= MAX_U32
  }

  /** decodeCommitted. */
  function DecodeCommitted(p: seq<byte>): Option<Receipt>
  {
    if |p| < COMMITTED_HEADER_BYTES || p[..4] != COMMITTED_MAGIC || p[4] != PROTOCOL_VERSION then None
    else if |p| != COMMITTED_HEADER_BYTES + FromLittle(p[29..33]) then None
    else Some(Receipt(BytesToHex(p[5..21]), FromLittle(p[21..29]), p[33..]))
  }

  lemma ReceiptReadsBack(r: Receipt)
    requires IsReceipt(r)
    ensures DecodeCommitted(ReceiptBytes(r)) == Some(r)
  {
    HexReadsBack(r.id);
    PowersOf256();
    LittleReadsBack(r.revision, 8);
    LittleReadsBack(|r.version|, 4);
    var p := ReceiptBytes(r);
    assert p[..4] == COMMITTED_MAGIC && p[4] == PROTOCOL_VERSION;
    assert p[5..21] == HexToBytes(r.id);
    assert p[21..29] == Little(r.revision, 8);
    assert p[29..33] == Little(|r.version|, 4);
    assert p[33..] == r.version;
  }

  lemma AcceptedIsReceipt(p: seq<byte>)
    requires DecodeCommitted(p).Some?
    ensures var r := DecodeCommitted(p).value; IsReceipt(r) && ReceiptBytes(r) == p
  {
    var r := DecodeCommitted(p).value;
    BytesReadBack(p[5..21]);
    FromLittleReadsBack(p[21..29]);
    FromLittleReadsBack(p[29..33]);
    PowersOf256();
    assert p == p[..4] + [p[4]] + (p[5..21] + (p[21..29] + (p[29..33] + p[33..])));
  }

  /** Decoding accepts exactly the receipt layout, and inverts it. */
  lemma DecodeInvertsReceipt(p: seq<byte>, r: Receipt)
    ensures DecodeCommitted(p) == Some(r) <==> IsReceipt(r) && ReceiptBytes(r) == p
  {
    if DecodeCommitted(p) == Some(r) {
      AcceptedIsReceipt(p);
    }
    if IsReceipt(r) && ReceiptBytes(r) == p {
      ReceiptReadsBack(r);
    }
  }
}
