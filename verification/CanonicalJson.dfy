/**
 * The canonical JSON of config/product-variants.ts, on integer-valued JSON.
 *
 * Texts are sequences of UTF-16 code units, which is what JavaScript sorts keys by and
 * what section 3.2.3 of RFC 8785 asks for.
 */
module CanonicalJson {
  import opened Sequences

  type Unit = u: int | 0 <= u < 65536
  type Text = seq<Unit>

  datatype Field = Field(key: Text, value: Json)
  datatype Json = Null | Bool(value: bool) | Number(n: int) | String(s: Text) | Array(items: seq<Json>) | Object(fields: seq<Field>)

  const MAX_SAFE := 9007199254740991

  const QUOTE: Unit := 34
  const COMMA: Unit := 44
  const MINUS: Unit := 45
  const COLON: Unit := 58
  const OPEN_ARRAY: Unit := 91
  const BACKSLASH: Unit := 92
  const CLOSE_ARRAY: Unit := 93
  const OPEN_OBJECT: Unit := 123
  const CLOSE_OBJECT: Unit := 125
  const NULL_TEXT: Text := [110, 117, 108, 108]
  const TRUE_TEXT: Text := [116, 114, 117, 101]
  const FALSE_TEXT: Text := [102, 97, 108, 115, 101]

  // ---------- Strings ----------

  predicate IsHigh(u: Unit) { 0xD800 <= u < 0xDC00 }
  predicate IsLow(u: Unit) { 0xDC00 <= u < 0xE000 }

  function HexDigit(d: int): Unit
    requires 0 <= d < 16
  {
    if d < 10 then 48 + d else 87 + d
  }

  function Hex(u: Unit): Text
  {
    [HexDigit(u / 16 / 16 / 16), HexDigit(u / 16 / 16 % 16), HexDigit(u / 16 % 16), HexDigit(u % 16)]
  }

  /** The letter after the backslash in the short escapes, if there is one. */
  function ShortEscape(u: Unit): Unit
  {
    if u == QUOTE then QUOTE
    else if u == BACKSLASH then BACKSLASH
    else if u == 8 then 98
    else if u == 12 then 102
    else if u == 10 then 110
    else if u == 13 then 114
    else if u == 9 then 116
    else 0
  }

  function EscapeUnit(u: Unit): Text
  {
    if ShortEscape(u) != 0 then [BACKSLASH, ShortEscape(u)]
    else if u < 32 || IsHigh(u) || IsLow(u) then [BACKSLASH, 117] + Hex(u)
    else [u]
  }

  /** JSON.stringify's text between the quotes; `paired` says the first unit closes a surrogate pair. */
  function Escape(s: Text, paired: bool): Text
    decreases |s|
  {
    if s == [] then []
    else if paired then [s[0]] + Escape(s[1..], false)
    else if IsHigh(s[0]) && |s| > 1 && IsLow(s[1]) then [s[0]] + Escape(s[1..], true)
    else EscapeUnit(s[0]) + Escape(s[1..], false)
  }

  function Quoted(s: Text): Text { [QUOTE] + (Escape(s, false) + [QUOTE]) }

  // ---------- Numbers ----------

  function Digits(n: nat): Text
    decreases n
  {
    if n < 10 then [48 + n] else Digits(n / 10) + [48 + n % 10]
  }

  function Decimal(n: int): Text { if n < 0 then [MINUS] + Digits(-n) else Digits(n) }

  // ---------- Key order ----------

  predicate Less(a: Text, b: Text)
    decreases |a|
  {
    if b == [] then false
    else if a == [] then true
    else if a[0] != b[0] then a[0] < b[0]
    else Less(a[1..], b[1..])
  }

  function Insert(f: Field, fs: seq<Field>): seq<Field>
    decreases |fs|
  {
    if fs == [] then [f]
    else if Less(fs[0].key, f.key) then [fs[0]] + Insert(f, fs[1..])
    else [f] + fs
  }

  function Sort(fs: seq<Field>): (r: seq<Field>)
    ensures multiset(r) == multiset(fs)
    decreases |fs|
  {
    if fs == [] then [] else
      InsertKeeps(fs[0], Sort(fs[1..]));
      assert fs == [fs[0]] + fs[1..];
      Insert(fs[0], Sort(fs[1..]))
  }

  lemma {:induction false} InsertKeeps(f: Field, fs: seq<Field>)
    ensures multiset(Insert(f, fs)) == multiset(fs) + multiset{f}
    decreases |fs|
  {
    if fs != [] {
      assert fs == [fs[0]] + fs[1..];
      InsertKeeps(f, fs[1..]);
    }
  }

  // ---------- Canonical text ----------

  function Canonical(j: Json): Text
    decreases j
  {
    match j
    case Null => NULL_TEXT
    case Bool(b) => if b then TRUE_TEXT else FALSE_TEXT
    case Number(n) => Decimal(n)
    case String(s) => Quoted(s)
    case Array(items) => [OPEN_ARRAY] + ItemsFrom(j, 0)
    case Object(fields) =>
      var sorted := Sort(fields);
      assert forall f :: f in sorted ==> f in multiset(sorted);
      [OPEN_OBJECT] + FieldsFrom(j, sorted, true)
  }

  /** The rest of an array from item i on, with its closing bracket. */
  function ItemsFrom(j: Json, i: nat): Text
    requires j.Array? && i <= |j.items|
    decreases j, |j.items| - i
  {
    if i == |j.items| then [CLOSE_ARRAY]
    else (if i == 0 then [] else [COMMA]) + (Canonical(j.items[i]) + ItemsFrom(j, i + 1))
  }

  /** The rest of an object from the given fields on, with its closing brace. */
  function FieldsFrom(j: Json, fs: seq<Field>, first: bool): Text
    requires j.Object? && forall f :: f in fs ==> f in j.fields
    decreases j, |fs|
  {
    if fs == [] then [CLOSE_OBJECT]
    else
      assert fs[0] in j.fields;
      (if first then [] else [COMMA])
        + (Quoted(fs[0].key) + ([COLON] + (Canonical(fs[0].value) + FieldsFrom(j, fs[1..], false))))
  }

  // ---------- Equality up to key order ----------

  predicate DistinctKeys(fs: seq<Field>)
  {
    forall i, j :: 0 <= i < j < |fs| ==> fs[i].key != fs[j].key
  }

  /** A JavaScript value of this kind: every number a safe integer, every key of an object its own. */
  predicate Proper(j: Json)
  {
    match j
    case Number(n) => -MAX_SAFE <= n <= MAX_SAFE
    case Array(items) => forall i :: 0 <= i < |items| ==> Proper(items[i])
    case Object(fields) => DistinctKeys(fields) && forall i :: 0 <= i < |fields| ==> Proper(fields[i].value)
    case _ => true
  }

  predicate HasKey(fs: seq<Field>, key: Text) { exists f :: f in fs && f.key == key }

  /** The same value, whatever the order in which objects list their keys. */
  ghost predicate Same(a: Json, b: Json)
  {
    match (a, b)
    case (Array(xs), Array(ys)) => |xs| == |ys| && forall i :: 0 <= i < |xs| ==> Same(xs[i], ys[i])
    case (Object(fs), Object(gs)) =>
      && (forall key :: HasKey(fs, key) <==> HasKey(gs, key))
      && (forall i, j :: 0 <= i < |fs| && 0 <= j < |gs| && fs[i].key == gs[j].key ==> Same(fs[i].value, gs[j].value))
    case (_, _) => a == b
  }

  lemma SameHead(x: Unit, a: Text, y: Unit, b: Text)
    requires [x] + a == [y] + b
    ensures x == y && a == b
  {
    assert ([x] + a)[0] == x && ([y] + b)[0] == y;
    assert ([x] + a)[1..] == a && ([y] + b)[1..] == b;
  }

  // ---------- Strings read back ----------

  /** One unit as it may appear between the quotes. */
  predicate IsEmission(u: Unit, e: Text)
  {
    e == EscapeUnit(u) || (e == [u] && u != QUOTE && u != BACKSLASH && u >= 32)
  }

  lemma EscapedReadsBack(u: Unit, v: Unit, r1: Text, r2: Text)
    requires |EscapeUnit(u)| > 1 && |EscapeUnit(v)| > 1 && EscapeUnit(u) + r1 == EscapeUnit(v) + r2
    ensures u == v && r1 == r2
  {
    var x := EscapeUnit(u) + r1;
    assert x[1] == EscapeUnit(u)[1] == EscapeUnit(v)[1];
    if ShortEscape(u) == 0 {
      assert Hex(u) == x[2..6] && Hex(v) == x[2..6];
    }
    assert r1 == x[|EscapeUnit(u)|..];
  }

  lemma EmissionReadsBack(u: Unit, e1: Text, r1: Text, v: Unit, e2: Text, r2: Text)
    requires IsEmission(u, e1) && IsEmission(v, e2) && e1 + r1 == e2 + r2
    ensures u == v && r1 == r2
  {
    assert (e1 + r1)[0] == e1[0] && (e2 + r2)[0] == e2[0];
    if e1[0] == BACKSLASH {
      EscapedReadsBack(u, v, r1, r2);
    } else {
      SameHead(u, r1, v, r2);
    }
  }

  /** What Escape emits for the first unit, and the flag for the rest. */
  function Emission(s: Text, paired: bool): (Text, bool)
    requires s != []
  {
    if paired then ([s[0]], false)
    else if IsHigh(s[0]) && |s| > 1 && IsLow(s[1]) then ([s[0]], true)
    else (EscapeUnit(s[0]), false)
  }

  predicate Fits(s: Text, paired: bool) { paired ==> s != [] && IsLow(s[0]) }

  lemma EscapeStep(s: Text, paired: bool, r: Text)
    requires s != [] && Fits(s, paired)
    ensures var (e, next) := Emission(s, paired);
      && IsEmission(s[0], e) && e[0] != QUOTE && Fits(s[1..], next)
      && Escape(s, paired) + ([QUOTE] + r) == e + (Escape(s[1..], next) + ([QUOTE] + r))
  {
    var (e, next) := Emission(s, paired);
    Regroup(e, Escape(s[1..], next), [QUOTE] + r);
  }

  lemma {:induction false} EscapeReadsBack(s: Text, p: bool, r1: Text, t: Text, q: bool, r2: Text)
    requires Fits(s, p) && Fits(t, q)
    requires Escape(s, p) + ([QUOTE] + r1) == Escape(t, q) + ([QUOTE] + r2)
    ensures s == t && r1 == r2
    decreases |s|
  {
    var x, y := [QUOTE] + r1, [QUOTE] + r2;
    if s == [] && t == [] {
      assert [] + x == x && [] + y == y;
      SameHead(QUOTE, r1, QUOTE, r2);
    } else if s == [] {
      assert (Escape(s, p) + x)[0] == QUOTE;
      EscapeStep(t, q, r2);
      assert false;
    } else if t == [] {
      assert (Escape(t, q) + y)[0] == QUOTE;
      EscapeStep(s, p, r1);
      assert false;
    } else {
      EscapeStep(s, p, r1);
      EscapeStep(t, q, r2);
      var (e1, next1) := Emission(s, p);
      var (e2, next2) := Emission(t, q);
      EmissionReadsBack(s[0], e1, Escape(s[1..], next1) + x, t[0], e2, Escape(t[1..], next2) + y);
      EscapeReadsBack(s[1..], next1, r1, t[1..], next2, r2);
      assert s == [s[0]] + s[1..] && t == [t[0]] + t[1..];
    }
  }

  lemma QuotedReadsBack(s: Text, r1: Text, t: Text, r2: Text)
    requires Quoted(s) + r1 == Quoted(t) + r2
    ensures s == t && r1 == r2
  {
    Regroup([QUOTE], Escape(s, false) + [QUOTE], r1);
    Regroup([QUOTE], Escape(t, false) + [QUOTE], r2);
    Regroup(Escape(s, false), [QUOTE], r1);
    Regroup(Escape(t, false), [QUOTE], r2);
    SameHead(QUOTE, Escape(s, false) + ([QUOTE] + r1), QUOTE, Escape(t, false) + ([QUOTE] + r2));
    EscapeReadsBack(s, false, r1, t, false, r2);
  }

  // ---------- Numbers read back ----------

  predicate IsDigit(u: Unit) { 48 <= u < 58 }

  /** What follows a number never begins with a digit. */
  predicate NoDigit(r: Text) { r == [] || !IsDigit(r[0]) }

  function ValueOf(ds: Text): int
    decreases |ds|
  {
    if ds == [] then 0 else ValueOf(ds[..|ds| - 1]) * 10 + ds[|ds| - 1] as int - 48
  }

  lemma {:induction false} DigitsAre(n: nat)
    ensures Digits(n) != [] && ValueOf(Digits(n)) == n && forall i :: 0 <= i < |Digits(n)| ==> IsDigit(Digits(n)[i])
    decreases n
  {
    var ds := Digits(n);
    if n < 10 {
      assert ds[..0] == [];
      assert ValueOf(ds[..0]) == 0;
    } else {
      DigitsAre(n / 10);
      assert ds[..|ds| - 1] == Digits(n / 10);
    }
  }

  lemma DigitsEnd(m: nat, r1: Text, n: nat, r2: Text)
    requires Digits(m) + r1 == Digits(n) + r2 && NoDigit(r1)
    ensures |Digits(m)| >= |Digits(n)|
  {
    DigitsAre(n);
    var k := |Digits(m)|;
    assert r1 != [] ==> (Digits(m) + r1)[k] == r1[0];
    assert r1 == [] ==> |Digits(m) + r1| == k;
  }

  lemma DigitsReadBack(m: nat, r1: Text, n: nat, r2: Text)
    requires Digits(m) + r1 == Digits(n) + r2 && NoDigit(r1) && NoDigit(r2)
    ensures m == n && r1 == r2
  {
    DigitsEnd(m, r1, n, r2);
    DigitsEnd(n, r2, m, r1);
    var x, k := Digits(m) + r1, |Digits(m)|;
    assert Digits(m) == x[..k] && Digits(n) == x[..k] && r1 == x[k..] && r2 == x[k..];
    DigitsAre(m);
    DigitsAre(n);
  }

  lemma DecimalHead(n: int, r: Text)
    ensures var x := Decimal(n) + r; x != [] && (x[0] == MINUS <==> n < 0) && (n >= 0 ==> IsDigit(x[0]))
  {
    if n >= 0 {
      DigitsAre(n);
    }
  }

  lemma DecimalReadsBack(m: int, r1: Text, n: int, r2: Text)
    requires Decimal(m) + r1 == Decimal(n) + r2 && NoDigit(r1) && NoDigit(r2)
    ensures m == n && r1 == r2
  {
    DecimalHead(m, r1);
    DecimalHead(n, r2);
    if m < 0 {
      Regroup([MINUS], Digits(-m), r1);
      Regroup([MINUS], Digits(-n), r2);
      SameHead(MINUS, Digits(-m) + r1, MINUS, Digits(-n) + r2);
      DigitsReadBack(-m, r1, -n, r2);
    } else {
      DigitsReadBack(m, r1, n, r2);
    }
  }

  // ---------- Keys sort one way ----------

  predicate Ascending(fs: seq<Field>)
  {
    forall i, j :: 0 <= i < j < |fs| ==> Less(fs[i].key, fs[j].key)
  }

  lemma {:induction false} LessIsStrict(a: Text)
    ensures !Less(a, a)
    decreases |a|
  {
    if a != [] {
      LessIsStrict(a[1..]);
    }
  }

  lemma {:induction false} LessIsTotal(a: Text, b: Text)
    ensures a == b || Less(a, b) || Less(b, a)
    decreases |a|
  {
    if a != [] && b != [] {
      LessIsTotal(a[1..], b[1..]);
      assert a == [a[0]] + a[1..] && b == [b[0]] + b[1..];
    }
  }

  lemma {:induction false} LessIsTransitive(a: Text, b: Text, c: Text)
    requires Less(a, b) && Less(b, c)
    ensures Less(a, c)
    decreases |a|
  {
    if a != [] && a[0] == b[0] == c[0] {
      LessIsTransitive(a[1..], b[1..], c[1..]);
    }
  }

  lemma {:induction false} InsertAscends(f: Field, fs: seq<Field>)
    requires Ascending(fs) && forall g :: g in fs ==> g.key != f.key
    ensures Ascending(Insert(f, fs)) && forall g :: g in Insert(f, fs) <==> g == f || g in fs
    decreases |fs|
  {
    if fs != [] {
      assert fs == [fs[0]] + fs[1..];
      assert forall g :: g in fs <==> g == fs[0] || g in fs[1..];
      var r := Insert(f, fs);
      if Less(fs[0].key, f.key) {
        InsertAscends(f, fs[1..]);
        assert forall g :: g in fs[1..] ==> Less(fs[0].key, g.key);
        assert forall i :: 1 <= i < |r| ==> r[i] in Insert(f, fs[1..]);
      } else {
        LessIsTotal(f.key, fs[0].key);
        forall i | 1 <= i < |fs|
          ensures Less(f.key, fs[i].key)
        {
          LessIsTransitive(f.key, fs[0].key, fs[i].key);
        }
      }
    }
  }

  lemma {:induction false} SortAscends(fs: seq<Field>)
    requires DistinctKeys(fs)
    ensures Ascending(Sort(fs)) && forall g :: g in Sort(fs) <==> g in fs
    decreases |fs|
  {
    if fs != [] {
      assert fs == [fs[0]] + fs[1..];
      SortAscends(fs[1..]);
      assert forall g :: g in fs[1..] ==> g.key != fs[0].key;
      InsertAscends(fs[0], Sort(fs[1..]));
    }
  }

  lemma LeastKey(fs: seq<Field>, gs: seq<Field>)
    requires fs != [] && Ascending(fs) && Ascending(gs) && forall key :: HasKey(fs, key) <==> HasKey(gs, key)
    ensures gs != [] && fs[0].key == gs[0].key
  {
    assert fs[0] in fs && HasKey(fs, fs[0].key) && HasKey(gs, fs[0].key);
    var g :| g in gs && g.key == fs[0].key;
    var j :| 0 <= j < |gs| && gs[j] == g;
    assert gs[0] in gs && HasKey(gs, gs[0].key) && HasKey(fs, gs[0].key);
    var f :| f in fs && f.key == gs[0].key;
    var i :| 0 <= i < |fs| && fs[i] == f;
    if i > 0 && j > 0 {
      LessIsTransitive(fs[0].key, fs[i].key, gs[j].key);
      LessIsStrict(fs[0].key);
    }
  }

  lemma TailKeys(fs: seq<Field>, key: Text)
    requires fs != [] && Ascending(fs)
    ensures HasKey(fs[1..], key) <==> HasKey(fs, key) && key != fs[0].key
  {
    assert fs == [fs[0]] + fs[1..];
    if HasKey(fs[1..], key) {
      var f :| f in fs[1..] && f.key == key;
      assert f in fs && Less(fs[0].key, key);
      LessIsStrict(key);
    }
    if HasKey(fs, key) && key != fs[0].key {
      var f :| f in fs && f.key == key;
      assert f in fs[1..];
    }
  }

  /** Two ascending lists with the same keys list them alike. */
  lemma {:induction false} AscendingKeysAgree(fs: seq<Field>, gs: seq<Field>)
    requires Ascending(fs) && Ascending(gs) && forall key :: HasKey(fs, key) <==> HasKey(gs, key)
    ensures |fs| == |gs| && forall i :: 0 <= i < |fs| ==> fs[i].key == gs[i].key
    decreases |fs|
  {
    if fs == [] {
      if gs != [] {
        LeastKey(gs, fs);
      }
    } else {
      LeastKey(fs, gs);
      forall key
        ensures HasKey(fs[1..], key) <==> HasKey(gs[1..], key)
      {
        TailKeys(fs, key);
        TailKeys(gs, key);
      }
      AscendingKeysAgree(fs[1..], gs[1..]);
      assert fs == [fs[0]] + fs[1..] && gs == [gs[0]] + gs[1..];
    }
  }

  // ---------- The text determines the value ----------

  /** The kind of value a text begins with. */
  function Kind(u: Unit): nat
  {
    if u == 110 then 1
    else if u == 116 then 2
    else if u == 102 then 3
    else if u == QUOTE then 4
    else if u == OPEN_ARRAY then 5
    else if u == OPEN_OBJECT then 6
    else if u == MINUS || IsDigit(u) then 7
    else 0
  }

  function KindOf(j: Json): nat
  {
    match j
    case Null => 1
    case Bool(b) => if b then 2 else 3
    case String(_) => 4
    case Array(_) => 5
    case Object(_) => 6
    case Number(_) => 7
  }

  lemma ScalarHead(j: Json)
    requires !j.Array? && !j.Object?
    ensures Canonical(j) != [] && Kind(Canonical(j)[0]) == KindOf(j)
  {
    match j {
      case Number(n) =>
        DecimalHead(n, []);
        assert Decimal(n) + [] == Decimal(n);
      case String(s) =>
        assert Quoted(s)[0] == QUOTE;
      case _ =>
    }
  }

  lemma BracketHead(u: Unit, x: Text)
    ensures [u] + x != [] && ([u] + x)[0] == u
  {
  }

  lemma CanonicalHead(j: Json)
    ensures Canonical(j) != [] && Kind(Canonical(j)[0]) == KindOf(j)
  {
    match j {
      case Array(_) =>
        BracketHead(OPEN_ARRAY, ItemsFrom(j, 0));
      case Object(fields) =>
        assert forall f :: f in Sort(fields) ==> f in multiset(Sort(fields));
        BracketHead(OPEN_OBJECT, FieldsFrom(j, Sort(fields), true));
      case _ => ScalarHead(j);
    }
  }

  lemma FirstUnit(j: Json, r: Text)
    ensures var x := Canonical(j) + r; x != [] && Kind(x[0]) == KindOf(j)
  {
    CanonicalHead(j);
    var text := Canonical(j);
    assert (text + r)[0] == text[0];
  }

  lemma ItemsHead(a: Json, i: nat, r: Text)
    requires a.Array? && i <= |a.items|
    ensures var x := ItemsFrom(a, i) + r;
      && x != [] && (i == |a.items| <==> x[0] == CLOSE_ARRAY)
      && (i > 0 ==> NoDigit(x))
  {
    if i < |a.items| && i == 0 {
      var rest := Canonical(a.items[0]) + ItemsFrom(a, 1);
      assert [] + rest == rest;
      Regroup(Canonical(a.items[0]), ItemsFrom(a, 1), r);
      FirstUnit(a.items[0], ItemsFrom(a, 1) + r);
    }
  }

  /** Past the separator, an item and then the rest of the array. */
  lemma ItemsStep(a: Json, i: nat, r: Text)
    requires a.Array? && i < |a.items|
    ensures ItemsFrom(a, i) + r == (if i == 0 then [] else [COMMA]) + (Canonical(a.items[i]) + (ItemsFrom(a, i + 1) + r))
  {
    var comma: Text := if i == 0 then [] else [COMMA];
    Regroup(comma, Canonical(a.items[i]) + ItemsFrom(a, i + 1), r);
    Regroup(Canonical(a.items[i]), ItemsFrom(a, i + 1), r);
  }

  lemma AfterSeparator(first: bool, x: Text, y: Text)
    requires (if first then [] else [COMMA]) + x == (if first then [] else [COMMA]) + y
    ensures x == y
  {
    if first {
      var none: Text := [];
      assert none + x == x && none + y == y;
    } else {
      SameHead(COMMA, x, COMMA, y);
    }
  }

  lemma {:induction false} ItemsReadBack(a: Json, i: nat, r1: Text, b: Json, r2: Text)
    requires a.Array? && b.Array? && i <= |a.items| && i <= |b.items| && Proper(a) && Proper(b)
    requires ItemsFrom(a, i) + r1 == ItemsFrom(b, i) + r2
    ensures |a.items| == |b.items| && r1 == r2
    ensures forall k :: i <= k < |a.items| ==> Same(a.items[k], b.items[k])
    decreases a, |a.items| - i
  {
    ItemsHead(a, i, r1);
    ItemsHead(b, i, r2);
    if i == |a.items| {
      SameHead(CLOSE_ARRAY, r1, CLOSE_ARRAY, r2);
    } else {
      var x, y := ItemsFrom(a, i + 1) + r1, ItemsFrom(b, i + 1) + r2;
      ItemsStep(a, i, r1);
      ItemsStep(b, i, r2);
      AfterSeparator(i == 0, Canonical(a.items[i]) + x, Canonical(b.items[i]) + y);
      ItemsHead(a, i + 1, r1);
      ItemsHead(b, i + 1, r2);
      ReadsBack(a.items[i], x, b.items[i], y);
      ItemsReadBack(a, i + 1, r1, b, r2);
    }
  }

  predicate Among(fs: seq<Field>, j: Json) { j.Object? && forall f :: f in fs ==> f in j.fields }

  lemma FieldsHead(a: Json, fs: seq<Field>, first: bool, r: Text)
    requires Among(fs, a)
    ensures var x := FieldsFrom(a, fs, first) + r;
      && x != [] && (fs == [] <==> x[0] == CLOSE_OBJECT) && NoDigit(x)
  {
    if fs != [] {
      assert fs[0] in a.fields;
      var rest := Quoted(fs[0].key) + ([COLON] + (Canonical(fs[0].value) + FieldsFrom(a, fs[1..], false)));
      assert rest[0] == QUOTE;
      assert FieldsFrom(a, fs, first) == (if first then [] else [COMMA]) + rest;
    }
  }

  lemma FieldsStep(a: Json, fs: seq<Field>, first: bool, r: Text)
    requires Among(fs, a) && fs != []
    ensures fs[0] in a.fields
    ensures FieldsFrom(a, fs, first) + r == (if first then [] else [COMMA])
      + (Quoted(fs[0].key) + ([COLON] + (Canonical(fs[0].value) + (FieldsFrom(a, fs[1..], false) + r))))
  {
    assert fs[0] in a.fields;
    var comma: Text := if first then [] else [COMMA];
    var value, rest := Canonical(fs[0].value), FieldsFrom(a, fs[1..], false);
    Regroup(comma, Quoted(fs[0].key) + ([COLON] + (value + rest)), r);
    Regroup(Quoted(fs[0].key), [COLON] + (value + rest), r);
    Regroup([COLON], value + rest, r);
    Regroup(value, rest, r);
  }

  ghost predicate SameFields(fs: seq<Field>, gs: seq<Field>)
  {
    |fs| == |gs| && forall k :: 0 <= k < |fs| ==> fs[k].key == gs[k].key && Same(fs[k].value, gs[k].value)
  }

  lemma {:induction false} FieldsReadBack(a: Json, fs: seq<Field>, r1: Text, b: Json, gs: seq<Field>, r2: Text, first: bool)
    requires Among(fs, a) && Among(gs, b) && Proper(a) && Proper(b)
    requires FieldsFrom(a, fs, first) + r1 == FieldsFrom(b, gs, first) + r2
    ensures SameFields(fs, gs) && r1 == r2
    decreases a, |fs|
  {
    FieldsHead(a, fs, first, r1);
    FieldsHead(b, gs, first, r2);
    if fs == [] {
      SameHead(CLOSE_OBJECT, r1, CLOSE_OBJECT, r2);
    } else {
      var x, y := FieldsFrom(a, fs[1..], false) + r1, FieldsFrom(b, gs[1..], false) + r2;
      var u, v := Canonical(fs[0].value) + x, Canonical(gs[0].value) + y;
      FieldsStep(a, fs, first, r1);
      FieldsStep(b, gs, first, r2);
      AfterSeparator(first, Quoted(fs[0].key) + ([COLON] + u), Quoted(gs[0].key) + ([COLON] + v));
      QuotedReadsBack(fs[0].key, [COLON] + u, gs[0].key, [COLON] + v);
      SameHead(COLON, u, COLON, v);
      FieldsHead(a, fs[1..], false, r1);
      FieldsHead(b, gs[1..], false, r2);
      ReadsBack(fs[0].value, x, gs[0].value, y);
      FieldsReadBack(a, fs[1..], r1, b, gs[1..], r2, false);
      assert fs == [fs[0]] + fs[1..] && gs == [gs[0]] + gs[1..];
    }
  }

  lemma SortedFieldsSame(fs: seq<Field>, gs: seq<Field>)
    requires DistinctKeys(fs) && DistinctKeys(gs) && SameFields(Sort(fs), Sort(gs))
    ensures Same(Object(fs), Object(gs))
  {
    SortAscends(fs);
    SortAscends(gs);
    var ss, ts := Sort(fs), Sort(gs);
    forall key
      ensures HasKey(fs, key) <==> HasKey(gs, key)
    {
      if HasKey(fs, key) {
        var k :| 0 <= k < |ss| && ss[k].key == key;
        assert ts[k] in gs;
      }
      if HasKey(gs, key) {
        var k :| 0 <= k < |ts| && ts[k].key == key;
        assert ss[k] in fs;
      }
    }
    forall i, j | 0 <= i < |fs| && 0 <= j < |gs| && fs[i].key == gs[j].key
      ensures Same(fs[i].value, gs[j].value)
    {
      assert fs[i] in ss && gs[j] in ts;
      var k :| 0 <= k < |ss| && ss[k] == fs[i];
      var m :| 0 <= m < |ts| && ts[m] == gs[j];
      AscendingKeysDiffer(ts, k, m);
    }
  }

  lemma AscendingKeysDiffer(fs: seq<Field>, i: nat, j: nat)
    requires Ascending(fs) && i < |fs| && j < |fs| && fs[i].key == fs[j].key
    ensures i == j
  {
    LessIsStrict(fs[i].key);
  }

  /** A canonical text, followed by anything that does not continue a number, determines value and rest. */
  lemma {:induction false} ReadsBack(a: Json, r1: Text, b: Json, r2: Text)
    requires Proper(a) && Proper(b) && NoDigit(r1) && NoDigit(r2)
    requires Canonical(a) + r1 == Canonical(b) + r2
    ensures Same(a, b) && r1 == r2
    decreases a
  {
    FirstUnit(a, r1);
    FirstUnit(b, r2);
    match a {
      case Null =>
        assert r1 == (NULL_TEXT + r1)[4..];
      case Bool(v) =>
        var k := if v then 4 else 5;
        assert r1 == (Canonical(a) + r1)[k..];
      case Number(n) =>
        DecimalReadsBack(n, r1, b.n, r2);
      case String(s) =>
        QuotedReadsBack(s, r1, b.s, r2);
      case Array(_) =>
        Regroup([OPEN_ARRAY], ItemsFrom(a, 0), r1);
        Regroup([OPEN_ARRAY], ItemsFrom(b, 0), r2);
        SameHead(OPEN_ARRAY, ItemsFrom(a, 0) + r1, OPEN_ARRAY, ItemsFrom(b, 0) + r2);
        ItemsReadBack(a, 0, r1, b, r2);
      case Object(fs) =>
        ObjectReadsBack(a, r1, b, r2);
    }
  }

  lemma {:induction false} ObjectReadsBack(a: Json, r1: Text, b: Json, r2: Text)
    requires a.Object? && b.Object? && Proper(a) && Proper(b) && Canonical(a) + r1 == Canonical(b) + r2
    ensures Same(a, b) && r1 == r2
    decreases a, |a.fields| + 1
  {
    SortAscends(a.fields);
    SortAscends(b.fields);
    var ss, ts := Sort(a.fields), Sort(b.fields);
    SortLength(a.fields);
    Regroup([OPEN_OBJECT], FieldsFrom(a, ss, true), r1);
    Regroup([OPEN_OBJECT], FieldsFrom(b, ts, true), r2);
    SameHead(OPEN_OBJECT, FieldsFrom(a, ss, true) + r1, OPEN_OBJECT, FieldsFrom(b, ts, true) + r2);
    FieldsReadBack(a, ss, r1, b, ts, r2, true);
    SortedFieldsSame(a.fields, b.fields);
  }

  lemma SortLength(fs: seq<Field>)
    ensures |Sort(fs)| == |fs|
  {
    assert |multiset(Sort(fs))| == |multiset(fs)|;
  }

  // ---------- The value, up to key order, determines the text ----------

  lemma {:induction false} ItemsAgree(a: Json, b: Json, i: nat)
    requires a.Array? && b.Array? && |a.items| == |b.items| && i <= |a.items|
    requires forall k :: 0 <= k < |a.items| ==> Canonical(a.items[k]) == Canonical(b.items[k])
    ensures ItemsFrom(a, i) == ItemsFrom(b, i)
    decreases |a.items| - i
  {
    if i < |a.items| {
      ItemsAgree(a, b, i + 1);
    }
  }

  lemma {:induction false} FieldsAgree(a: Json, fs: seq<Field>, b: Json, gs: seq<Field>, first: bool)
    requires Among(fs, a) && Among(gs, b) && |fs| == |gs|
    requires forall k :: 0 <= k < |fs| ==> fs[k].key == gs[k].key && Canonical(fs[k].value) == Canonical(gs[k].value)
    ensures FieldsFrom(a, fs, first) == FieldsFrom(b, gs, first)
    decreases |fs|
  {
    if fs != [] {
      assert fs[0] in a.fields && gs[0] in b.fields;
      FieldsAgree(a, fs[1..], b, gs[1..], false);
    }
  }

  /** Canonical text does not depend on the order in which objects list their keys. */
  lemma {:induction false} KeyOrderIsIrrelevant(a: Json, b: Json)
    requires Proper(a) && Proper(b) && Same(a, b)
    ensures Canonical(a) == Canonical(b)
    decreases a
  {
    match a {
      case Array(xs) =>
        forall k | 0 <= k < |xs|
          ensures Canonical(xs[k]) == Canonical(b.items[k])
        {
          KeyOrderIsIrrelevant(xs[k], b.items[k]);
        }
        ItemsAgree(a, b, 0);
      case Object(fs) =>
        var gs := b.fields;
        var ss, ts := Sort(fs), Sort(gs);
        SortAscends(fs);
        SortAscends(gs);
        SortedKeysSame(fs, ss);
        SortedKeysSame(gs, ts);
        AscendingKeysAgree(ss, ts);
        forall k | 0 <= k < |ss|
          ensures Canonical(ss[k].value) == Canonical(ts[k].value)
        {
          assert ss[k] in fs && ts[k] in gs;
          var i :| 0 <= i < |fs| && fs[i] == ss[k];
          var j :| 0 <= j < |gs| && gs[j] == ts[k];
          KeyOrderIsIrrelevant(fs[i].value, gs[j].value);
        }
        FieldsAgree(a, ss, b, ts, true);
      case _ =>
    }
  }

  lemma SortedKeysSame(fs: seq<Field>, ss: seq<Field>)
    requires forall g :: g in ss <==> g in fs
    ensures forall key :: HasKey(ss, key) <==> HasKey(fs, key)
  {
  }

  /** Two values have the same canonical text exactly when they are the same up to key order. */
  lemma CanonicalIffSame(a: Json, b: Json)
    requires Proper(a) && Proper(b)
    ensures Canonical(a) == Canonical(b) <==> Same(a, b)
  {
    if Canonical(a) == Canonical(b) {
      ReadsBack(a, [], b, []);
    }
    if Same(a, b) {
      KeyOrderIsIrrelevant(a, b);
    }
  }
}
