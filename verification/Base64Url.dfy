/**
 * The selection-anchor texts of client/src/collab/protocol.ts: unpadded base64url
 * (sections 3.5 and 5 of RFC 4648), decoded forgivingly and then checked by encoding
 * again.
 */
module Base64Url {
  import opened Sequences
  import opened Wrappers

  type six = v: int | 0 <= v < 64

  const MAX_SELECTION_ANCHOR_BYTES := 4096
  /** Math.ceil(4096 * 4 / 3) */
  const MAX_TEXT := 5462

  // ---------- The alphabet ----------

  predicate InAlphabet(c: char)
  {
    'A' <= c <= 'Z' || 'a' <= c <= 'z' || '0' <= c <= '9' || c == '-' || c == '_'
  }

  function Letter(v: six): char
  {
    if v < 26 then (65 + v) as char
    else if v < 52 then (71 + v) as char
    else if v < 62 then (v - 4) as char
    else if v == 62 then '-' else '_'
  }

  function Sextet(c: char): six
    requires InAlphabet(c)
  {
    if 'A' <= c <= 'Z' then c as int - 65
    else if 'a' <= c <= 'z' then c as int - 71
    else if '0' <= c <= '9' then c as int + 4
    else if c == '-' then 62 else 63
  }

  lemma LetterOfSextet(c: char)
    requires InAlphabet(c)
    ensures Letter(Sextet(c)) == c
  {
  }

  lemma SextetOfLetter(v: six)
    ensures InAlphabet(Letter(v)) && Sextet(Letter(v)) == v
  {
  }

  function Spell(s: seq<six>): (t: string)
    ensures |t| == |s| && forall i :: 0 <= i < |s| ==> t[i] == Letter(s[i])
  {
    seq(|s|, i requires 0 <= i < |s| => Letter(s[i]))
  }

  predicate AllInAlphabet(t: string) { forall i :: 0 <= i < |t| ==> InAlphabet(t[i]) }

  function Read(t: string): (s: seq<six>)
    requires AllInAlphabet(t)
    ensures |s| == |t| && forall i :: 0 <= i < |t| ==> s[i] == Sextet(t[i])
  {
    seq(|t|, i requires 0 <= i < |t| => Sextet(t[i]))
  }

  lemma SpellReadsBack(s: seq<six>)
    ensures AllInAlphabet(Spell(s)) && Read(Spell(s)) == s
  {
    forall i | 0 <= i < |s|
      ensures InAlphabet(Spell(s)[i]) && Sextet(Spell(s)[i]) == s[i]
    {
      SextetOfLetter(s[i]);
    }
  }

  lemma ReadSpellsBack(t: string)
    requires AllInAlphabet(t)
    ensures Spell(Read(t)) == t
  {
    forall i | 0 <= i < |t|
      ensures Spell(Read(t))[i] == t[i]
    {
      LetterOfSextet(t[i]);
    }
  }

  // ---------- Regrouping bits ----------

  /** The four sextets of three bytes. */
  function S0(x: byte): six { x / 4 }
  function S1(x: byte, y: byte): six { x % 4 * 16 + y / 16 }
  function S2(y: byte, z: byte): six { y % 16 * 4 + z / 64 }
  function S3(z: byte): six { z % 64 }

  /** The three bytes of four sextets. */
  function B0(a: six, b: six): byte { a * 4 + b / 16 }
  function B1(b: six, c: six): byte { b % 16 * 16 + c / 4 }
  function B2(c: six, d: six): byte { c % 4 * 64 + d }

  function Sextets(b: seq<byte>): seq<six>
  {
    if |b| == 0 then []
    else if |b| == 1 then [S0(b[0]), S1(b[0], 0)]
    else if |b| == 2 then [S0(b[0]), S1(b[0], b[1]), S2(b[1], 0)]
    else [S0(b[0]), S1(b[0], b[1]), S2(b[1], b[2]), S3(b[2])] + Sextets(b[3..])
  }

  /** A lone last sextet is an error, and bits left over at the end are dropped. */
  function Bytes(s: seq<six>): Option<seq<byte>>
  {
    if |s| == 0 then Some([])
    else if |s| == 1 then None
    else if |s| == 2 then Some([B0(s[0], s[1])])
    else if |s| == 3 then Some([B0(s[0], s[1]), B1(s[1], s[2])])
    else
      match Bytes(s[4..])
      case None => None
      case Some(rest) => Some([B0(s[0], s[1]), B1(s[1], s[2]), B2(s[2], s[3])] + rest)
  }

  /** toBase64Url: three bytes to four letters, and no padding. */
  function Encode(b: seq<byte>): string { Spell(Sextets(b)) }

  /** atob, on text of the alphabet. */
  function Atob(t: string): Option<seq<byte>>
    requires AllInAlphabet(t)
  {
    Bytes(Read(t))
  }

  /** fromBase64Url. */
  function Decode(t: string): Option<seq<byte>>
  {
    if t == "" || !AllInAlphabet(t) || |t| > MAX_TEXT then None
    else
      match Atob(t)
      case None => None
      case Some(b) => if |b| == 0 || |b| > MAX_SELECTION_ANCHOR_BYTES || Encode(b) != t then None else Some(b)
  }

  // ---------- Canonical texts ----------

  /** The last sextet of a text with no whole last group carries no stray bits. */
  predicate NoStrayBits(s: seq<six>)
  {
    if |s| == 0 then true
    else if |s| == 1 then false
    else if |s| == 2 then s[1] % 16 == 0
    else if |s| == 3 then s[2] % 4 == 0
    else NoStrayBits(s[4..])
  }

  /** Unpadded texts whose unused last bits are zero. */
  predicate IsCanonical(t: string) { AllInAlphabet(t) && NoStrayBits(Read(t)) }

  lemma BytesBack(x: byte, y: byte, z: byte)
    ensures B0(S0(x), S1(x, y)) == x && B1(S1(x, y), S2(y, z)) == y && B2(S2(y, z), S3(z)) == z
  {
  }

  lemma OneBack(x: byte)
    ensures B0(S0(x), S1(x, 0)) == x && S1(x, 0) % 16 == 0
  {
  }

  lemma TwoBytes(x: byte, y: byte)
    ensures B0(S0(x), S1(x, y)) == x && B1(S1(x, y), S2(y, 0)) == y && S2(y, 0) % 4 == 0
  {
    BytesBack(x, y, 0);
  }

  lemma SextetsBack(a: six, b: six, c: six, d: six)
    ensures var x, y, z := B0(a, b), B1(b, c), B2(c, d);
      S0(x) == a && S1(x, y) == b && S2(y, z) == c && S3(z) == d
  {
  }

  lemma OneDecodes(a: six, b: six, x: byte)
    requires B0(a, b) == x && b % 16 == 0
    ensures NoStrayBits([a, b]) && Bytes([a, b]) == Some([x])
  {
  }

  lemma TwoDecode(a: six, b: six, c: six, x: byte, y: byte)
    requires B0(a, b) == x && B1(b, c) == y && c % 4 == 0
    ensures NoStrayBits([a, b, c]) && Bytes([a, b, c]) == Some([x, y])
  {
  }

  lemma GroupDecodes(a: six, b: six, c: six, d: six, x: byte, y: byte, z: byte, rest: seq<six>)
    requires B0(a, b) == x && B1(b, c) == y && B2(c, d) == z
    requires NoStrayBits(rest) && Bytes(rest).Some?
    ensures NoStrayBits([a, b, c, d] + rest) && Bytes([a, b, c, d] + rest) == Some([x, y, z] + Bytes(rest).value)
  {
    assert ([a, b, c, d] + rest)[4..] == rest;
  }

  /** Every encoding is canonical and decodes to its bytes. */
  lemma {:induction false} SextetsReadBack(b: seq<byte>)
    ensures NoStrayBits(Sextets(b)) && Bytes(Sextets(b)) == Some(b)
    decreases |b|
  {
    if |b| == 1 {
      OneBack(b[0]);
      OneDecodes(S0(b[0]), S1(b[0], 0), b[0]);
      assert b == [b[0]];
    } else if |b| == 2 {
      TwoBytes(b[0], b[1]);
      TwoDecode(S0(b[0]), S1(b[0], b[1]), S2(b[1], 0), b[0], b[1]);
      assert b == [b[0], b[1]];
    } else if |b| > 2 {
      SextetsReadBack(b[3..]);
      BytesBack(b[0], b[1], b[2]);
      GroupDecodes(S0(b[0]), S1(b[0], b[1]), S2(b[1], b[2]), S3(b[2]), b[0], b[1], b[2], Sextets(b[3..]));
      assert b == [b[0], b[1], b[2]] + b[3..];
    }
  }

  lemma TwoBack(a: six, b: six)
    requires b % 16 == 0
    ensures S0(B0(a, b)) == a && S1(B0(a, b), 0) == b
  {
    SextetsBack(a, b, 0, 0);
  }

  lemma ThreeBack(a: six, b: six, c: six)
    requires c % 4 == 0
    ensures S0(B0(a, b)) == a && S1(B0(a, b), B1(b, c)) == b && S2(B1(b, c), 0) == c
  {
    SextetsBack(a, b, c, 0);
  }

  lemma ShortReadsBack(s: seq<six>)
    requires NoStrayBits(s) && |s| < 4
    ensures Bytes(s).Some? && Sextets(Bytes(s).value) == s
  {
    if |s| == 2 {
      TwoBack(s[0], s[1]);
      assert s == [s[0], s[1]];
    } else if |s| == 3 {
      ThreeBack(s[0], s[1], s[2]);
      assert s == [s[0], s[1], s[2]];
    }
  }

  lemma GroupReadsBack(a: six, b: six, c: six, d: six, rest: seq<byte>)
    ensures Sextets([B0(a, b), B1(b, c), B2(c, d)] + rest) == [a, b, c, d] + Sextets(rest)
  {
    SextetsBack(a, b, c, d);
    assert ([B0(a, b), B1(b, c), B2(c, d)] + rest)[3..] == rest;
  }

  /** Sextets with no stray bits are the regrouping of the bytes they make. */
  lemma {:induction false} BytesReadBack(s: seq<six>)
    requires NoStrayBits(s)
    ensures Bytes(s).Some? && Sextets(Bytes(s).value) == s
    decreases |s|
  {
    if |s| < 4 {
      ShortReadsBack(s);
    } else {
      BytesReadBack(s[4..]);
      GroupReadsBack(s[0], s[1], s[2], s[3], Bytes(s[4..]).value);
      assert s == [s[0], s[1], s[2], s[3]] + s[4..];
    }
  }

  /** Four letters for three bytes, rounded up: the 5462-letter cutoff turns no valid text away. */
  lemma {:induction false} EncodeLength(b: seq<byte>)
    ensures |Encode(b)| == (|b| * 4 + 2) / 3
    decreases |b|
  {
    if |b| >= 3 {
      EncodeLength(b[3..]);
    }
  }

  lemma EncodeReadsBack(b: seq<byte>)
    ensures IsCanonical(Encode(b)) && Atob(Encode(b)) == Some(b)
  {
    SpellReadsBack(Sextets(b));
    SextetsReadBack(b);
  }

  lemma CanonicalIsEncoding(t: string)
    requires IsCanonical(t)
    ensures Atob(t).Some? && Encode(Atob(t).value) == t
  {
    ReadSpellsBack(t);
    BytesReadBack(Read(t));
  }

  /** Decoding accepts exactly the encodings of 1 to 4096 bytes, and inverts encoding on them. */
  lemma DecodeInvertsEncode(t: string, b: seq<byte>)
    ensures Decode(t) == Some(b) <==> 1 <= |b| <= MAX_SELECTION_ANCHOR_BYTES && Encode(b) == t
  {
    EncodeReadsBack(b);
    EncodeLength(b);
  }

  /** In terms of the text alone: it accepts exactly the nonempty canonical texts of at most 5462 letters. */
  lemma AcceptsExactlyCanonical(t: string)
    ensures Decode(t).Some? <==> t != "" && IsCanonical(t) && |t| <= MAX_TEXT
  {
    if Decode(t).Some? {
      EncodeReadsBack(Decode(t).value);
    }
    if t != "" && IsCanonical(t) && |t| <= MAX_TEXT {
      CanonicalIsEncoding(t);
      EncodeLength(Atob(t).value);
    }
  }
}
