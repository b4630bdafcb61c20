/**
 * The bounded line diff of client/src/intelligence/operations.ts.
 *
 * A script of line edits is sound when its kept-and-removed lines spell the old
 * text and its kept-and-added lines spell the new one.  The diff is sound in
 * both of its branches, and the table branch is minimal among all scripts.
 */
module LineDiff {
  import opened Sequences

  newtype uint32 = x: int | 0 <= x < 0x1_0000_0000

  const TABLE_LIMIT := 1_500_000

  datatype Kind = Equal | Added | Removed
  datatype Edit = Edit(kind: Kind, line: string)
  datatype Chunk = Chunk(kind: Kind, lines: seq<string>)

  // ---------- Text and lines ----------

  function Split(text: string): (lines: seq<string>)
    ensures |lines| > 0
    ensures Join(lines) == text
    ensures forall k :: 0 <= k < |lines| ==> '\n' !in lines[k]
  {
    if text == [] then [[]]
    else
      var rest := Split(text[1..]);
      if text[0] == '\n' then [[]] + rest
      else [[text[0]] + rest[0]] + rest[1..]
  }

  function Join(lines: seq<string>): string
  {
    if lines == [] then ""
    else if |lines| == 1 then lines[0]
    else lines[0] + "\n" + Join(lines[1..])
  }

  // ---------- Edit scripts ----------

  /** The lines of the old text one edit accounts for. */
  function OldPart(e: Edit): seq<string> { if e.kind.Added? then [] else [e.line] }

  /** The lines of the new text one edit accounts for. */
  function NewPart(e: Edit): seq<string> { if e.kind.Removed? then [] else [e.line] }

  /** The old text a script starts from. */
  function OldLines(edits: seq<Edit>): seq<string>
  {
    if edits == [] then [] else OldPart(edits[0]) + OldLines(edits[1..])
  }

  /** The new text a script produces. */
  function NewLines(edits: seq<Edit>): seq<string>
  {
    if edits == [] then [] else NewPart(edits[0]) + NewLines(edits[1..])
  }

  function Kept(edits: seq<Edit>): nat
  {
    if edits == [] then 0
    else (if edits[0].kind.Equal? then 1 else 0) + Kept(edits[1..])
  }

  /** Added plus removed lines: what a reader of the diff has to look at. */
  function Changed(edits: seq<Edit>): nat
  {
    if edits == [] then 0
    else (if edits[0].kind.Equal? then 0 else 1) + Changed(edits[1..])
  }

  ghost predicate Transforms(edits: seq<Edit>, left: seq<string>, right: seq<string>)
  {
    OldLines(edits) == left && NewLines(edits) == right
  }

  lemma {:induction false} OldAppend(a: seq<Edit>, b: seq<Edit>)
    ensures OldLines(a + b) == OldLines(a) + OldLines(b)
  {
    if a == [] {
      assert a + b == b;
    } else {
      assert (a + b)[1..] == a[1..] + b;
      OldAppend(a[1..], b);
      assert OldLines(a + b) == OldPart(a[0]) + (OldLines(a[1..]) + OldLines(b));
    }
  }

  lemma {:induction false} NewAppend(a: seq<Edit>, b: seq<Edit>)
    ensures NewLines(a + b) == NewLines(a) + NewLines(b)
  {
    if a == [] {
      assert a + b == b;
    } else {
      assert (a + b)[1..] == a[1..] + b;
      NewAppend(a[1..], b);
      assert NewLines(a + b) == NewPart(a[0]) + (NewLines(a[1..]) + NewLines(b));
    }
  }

  lemma {:induction false} KeptAppend(a: seq<Edit>, b: seq<Edit>)
    ensures Kept(a + b) == Kept(a) + Kept(b)
  {
    if a == [] {
      assert a + b == b;
    } else {
      assert (a + b)[1..] == a[1..] + b;
      KeptAppend(a[1..], b);
    }
  }

  lemma ScriptAppend(a: seq<Edit>, e: Edit)
    ensures OldLines(a + [e]) == OldLines(a) + OldPart(e)
    ensures NewLines(a + [e]) == NewLines(a) + NewPart(e)
    ensures Kept(a + [e]) == Kept(a) + (if e.kind.Equal? then 1 else 0)
  {
    OldAppend(a, [e]);
    NewAppend(a, [e]);
    KeptAppend(a, [e]);
    assert OldLines([e]) == OldPart(e) + [] && NewLines([e]) == NewPart(e) + [];
  }

  /** Lengths balance, so keeping more lines and changing fewer are the same goal. */
  lemma {:induction false} ScriptLengths(edits: seq<Edit>)
    ensures |OldLines(edits)| + |NewLines(edits)| == 2 * Kept(edits) + Changed(edits)
  {
    if edits != [] {
      ScriptLengths(edits[1..]);
    }
  }

  // ---------- Chunks ----------

  function LinesAs(kind: Kind, lines: seq<string>): (r: seq<Edit>)
    ensures |r| == |lines|
    ensures forall k :: 0 <= k < |r| ==> r[k] == Edit(kind, lines[k])
  {
    if lines == [] then [] else [Edit(kind, lines[0])] + LinesAs(kind, lines[1..])
  }

  function Flatten(chunks: seq<Chunk>): seq<Edit>
  {
    if chunks == [] then []
    else
      var last := chunks[|chunks| - 1];
      Flatten(chunks[..|chunks| - 1]) + LinesAs(last.kind, last.lines)
  }

  /** Every chunk is a maximal run: none is empty and neighbours differ in kind. */
  ghost predicate MaximalRuns(chunks: seq<Chunk>)
  {
    && (forall k :: 0 <= k < |chunks| ==> chunks[k].lines != [])
    && (forall j, k :: 0 <= j < k < |chunks| && k == j + 1 ==> chunks[j].kind != chunks[k].kind)
  }

  method PushChunk(chunks: seq<Chunk>, kind: Kind, line: string) returns (r: seq<Chunk>)
    requires MaximalRuns(chunks)
    ensures MaximalRuns(r)
    ensures Flatten(r) == Flatten(chunks) + [Edit(kind, line)]
  {
    var n := |chunks|;
    if n > 0 && chunks[n - 1].kind == kind {
      var grown := Chunk(kind, chunks[n - 1].lines + [line]);
      r := chunks[..n - 1] + [grown];
      assert r[..n - 1] == chunks[..n - 1];
      assert LinesAs(kind, grown.lines) == LinesAs(kind, chunks[n - 1].lines) + [Edit(kind, line)];
    } else {
      r := chunks + [Chunk(kind, [line])];
      assert r[..n] == chunks;
    }
  }

  // ---------- Longest common subsequence ----------

  function Max(a: nat, b: nat): nat { if a < b then b else a }

  function Lcs(l: seq<string>, r: seq<string>): (n: nat)
    ensures n <= |l| && n <= |r|
  {
    if l == [] || r == [] then 0
    else if l[0] == r[0] then 1 + Lcs(l[1..], r[1..])
    else Max(Lcs(l[1..], r), Lcs(l, r[1..]))
  }

  /** Dropping one line from either side costs at most one common line. */
  lemma {:induction false} LcsDrop(l: seq<string>, r: seq<string>)
    ensures l != [] ==> Lcs(l[1..], r) <= Lcs(l, r) <= 1 + Lcs(l[1..], r)
    ensures r != [] ==> Lcs(l, r[1..]) <= Lcs(l, r) <= 1 + Lcs(l, r[1..])
    decreases |l| + |r|
  {
    if l != [] && r != [] {
      LcsDrop(l[1..], r);
      LcsDrop(l, r[1..]);
      LcsDrop(l[1..], r[1..]);
    }
  }

  /** No script between two texts keeps more lines than their longest common subsequence. */
  lemma {:induction false} LcsBoundsEveryScript(edits: seq<Edit>)
    ensures Kept(edits) <= Lcs(OldLines(edits), NewLines(edits))
  {
    if edits != [] {
      LcsBoundsEveryScript(edits[1..]);
      var l, r := OldLines(edits), NewLines(edits);
      LcsDrop(l, r);
      match edits[0].kind
      case Equal => assert l[1..] == OldLines(edits[1..]) && r[1..] == NewLines(edits[1..]);
      case Removed => assert l[1..] == OldLines(edits[1..]) && r == NewLines(edits[1..]);
      case Added => assert r[1..] == NewLines(edits[1..]) && l == OldLines(edits[1..]);
    }
  }

  /** A script that keeps the longest common subsequence changes the fewest lines of all scripts. */
  lemma KeepingLcsIsMinimal(best: seq<Edit>, other: seq<Edit>, left: seq<string>, right: seq<string>)
    requires Transforms(best, left, right) && Kept(best) == Lcs(left, right)
    requires Transforms(other, left, right)
    ensures Kept(other) <= Kept(best)
    ensures Changed(best) <= Changed(other)
  {
    LcsBoundsEveryScript(other);
    ScriptLengths(best);
    ScriptLengths(other);
  }

  // ---------- The diff ----------

  ghost predicate IsTable(rows: array2<uint32>, left: seq<string>, right: seq<string>)
    reads rows
  {
    && rows.Length0 == |left| + 1 && rows.Length1 == |right| + 1
    && forall i, j {:trigger rows[i, j]} :: 0 <= i <= |left| && 0 <= j <= |right| ==>
         rows[i, j] as int == Lcs(left[i..], right[j..])
  }

  lemma FactorIsBounded(a: nat, b: nat)
    requires b > 0 && a * b <= TABLE_LIMIT
    ensures a <= TABLE_LIMIT
  {
    assert a * 1 <= a * b;
  }

  lemma Cell(left: seq<string>, right: seq<string>, i: nat, j: nat)
    requires i < |left| && j < |right|
    ensures Lcs(left[i..], right[j..]) ==
      if left[i] == right[j] then 1 + Lcs(left[i + 1..], right[j + 1..])
      else Max(Lcs(left[i + 1..], right[j..]), Lcs(left[i..], right[j + 1..]))
  {
    assert left[i..][1..] == left[i + 1..] && right[j..][1..] == right[j + 1..];
  }

  /** A cell from the three beside and below it. */
  function CellValue(left: seq<string>, right: seq<string>, i: nat, j: nat, both: uint32, down: uint32, across: uint32): (r: uint32)
    requires i < |left| <= TABLE_LIMIT && j < |right|
    requires both as int == Lcs(left[i + 1..], right[j + 1..]) && down as int == Lcs(left[i + 1..], right[j..])
    requires across as int == Lcs(left[i..], right[j + 1..])
    ensures r as int == Lcs(left[i..], right[j..])
  {
    Cell(left, right, i, j);
    if left[i] == right[j] then both + 1 else if down < across then across else down
  }

  /** The table of suffix LCS lengths; 32-bit cells never overflow below TABLE_LIMIT. */
  method FillTable(left: seq<string>, right: seq<string>) returns (rows: array2<uint32>)
    requires |left| > 0 && |right| > 0 && |left| <= TABLE_LIMIT
    ensures fresh(rows)
    ensures IsTable(rows, left, right)
  {
    rows := new uint32[|left| + 1, |right| + 1]((_, _) => 0);
    var i := |left|;
    while i > 0
      invariant 0 <= i <= |left|
      invariant forall x, y {:trigger rows[x, y]} :: i <= x <= |left| && 0 <= y <= |right| ==> rows[x, y] as int == Lcs(left[x..], right[y..])
      invariant forall x :: 0 <= x < i ==> rows[x, |right|] == 0
    {
      i := i - 1;
      var j := |right|;
      while j > 0
        invariant 0 <= j <= |right|
        invariant forall x, y {:trigger rows[x, y]} :: i < x <= |left| && 0 <= y <= |right| ==> rows[x, y] as int == Lcs(left[x..], right[y..])
        invariant forall y :: j <= y <= |right| ==> rows[i, y] as int == Lcs(left[i..], right[y..])
        invariant forall x :: 0 <= x < i ==> rows[x, |right|] == 0
      {
        j := j - 1;
        assert rows[i + 1, j] as int == Lcs(left[i + 1..], right[j..]) && rows[i, j + 1] as int == Lcs(left[i..], right[j + 1..]);
        assert rows[i + 1, j + 1] as int == Lcs(left[i + 1..], right[j + 1..]);
        rows[i, j] := CellValue(left, right, i, j, rows[i + 1, j + 1], rows[i + 1, j], rows[i, j + 1]);
      }
    }
  }

  lemma {:induction false} UniformScript(kind: Kind, lines: seq<string>)
    ensures OldLines(LinesAs(kind, lines)) == if kind.Added? then [] else lines
    ensures NewLines(LinesAs(kind, lines)) == if kind.Removed? then [] else lines
    ensures Kept(LinesAs(kind, lines)) == if kind.Equal? then |lines| else 0
  {
    if lines != [] {
      UniformScript(kind, lines[1..]);
      assert LinesAs(kind, lines)[1..] == LinesAs(kind, lines[1..]);
      assert [lines[0]] + lines[1..] == lines;
    }
  }

  lemma {:induction false} LinesAsStep(kind: Kind, lines: seq<string>, k: nat)
    requires k < |lines|
    ensures LinesAs(kind, lines[k..]) == [Edit(kind, lines[k])] + LinesAs(kind, lines[k + 1..])
  {
    assert lines[k..][1..] == lines[k + 1..];
  }

  method PushAll(chunks: seq<Chunk>, kind: Kind, lines: seq<string>) returns (r: seq<Chunk>)
    requires MaximalRuns(chunks)
    ensures MaximalRuns(r)
    ensures Flatten(r) == Flatten(chunks) + LinesAs(kind, lines)
  {
    r := chunks;
    ghost var all := Flatten(chunks) + LinesAs(kind, lines);
    for k := 0 to |lines|
      invariant MaximalRuns(r)
      invariant Flatten(r) + LinesAs(kind, lines[k..]) == all
    {
      LinesAsStep(kind, lines, k);
      Regroup(Flatten(r), [Edit(kind, lines[k])], LinesAs(kind, lines[k + 1..]));
      r := PushChunk(r, kind, lines[k]);
    }
  }

  /** Appending a run of one kind extends the texts on its own side only. */
  lemma ExtendByRun(script: seq<Edit>, left: seq<string>, right: seq<string>, kind: Kind, lines: seq<string>)
    requires Transforms(script, left, right)
    ensures Transforms(script + LinesAs(kind, lines),
      left + (if kind.Added? then [] else lines), right + (if kind.Removed? then [] else lines))
    ensures Kept(script + LinesAs(kind, lines)) == Kept(script) + (if kind.Equal? then |lines| else 0)
  {
    UniformScript(kind, lines);
    OldAppend(script, LinesAs(kind, lines));
    NewAppend(script, LinesAs(kind, lines));
    KeptAppend(script, LinesAs(kind, lines));
  }

  function FourRuns(head: seq<string>, removed: seq<string>, added: seq<string>, tail: seq<string>): seq<Edit>
  {
    (([] + LinesAs(Equal, head)) + LinesAs(Removed, removed)) + LinesAs(Added, added) + LinesAs(Equal, tail)
  }

  lemma FourRunsTransform(head: seq<string>, removed: seq<string>, added: seq<string>, tail: seq<string>)
    ensures Transforms(FourRuns(head, removed, added, tail), head + removed + tail, head + added + tail)
    ensures Kept(FourRuns(head, removed, added, tail)) == |head| + |tail|
  {
    var a := [] + LinesAs(Equal, head);
    ExtendByRun([], [], [], Equal, head);
    assert [] + head == head;
    var b := a + LinesAs(Removed, removed);
    ExtendByRun(a, head, head, Removed, removed);
    assert head + [] == head;
    var c := b + LinesAs(Added, added);
    ExtendByRun(b, head + removed, head, Added, added);
    assert head + removed + [] == head + removed;
    ExtendByRun(c, head + removed, head + added, Equal, tail);
  }

  ghost predicate CommonPrefix(left: seq<string>, right: seq<string>, n: nat)
  {
    n <= |left| && n <= |right| && left[..n] == right[..n]
  }

  /** The lengths of the common prefix and of the common suffix of what is left. */
  method CommonEnds(left: seq<string>, right: seq<string>) returns (prefix: nat, suffix: nat)
    ensures prefix + suffix <= |left| && prefix + suffix <= |right|
    ensures left[..prefix] == right[..prefix]
    ensures left[|left| - suffix..] == right[|right| - suffix..]
    ensures forall n: nat :: CommonPrefix(left, right, n) ==> n <= prefix
    ensures prefix + suffix < |left| && prefix + suffix < |right| ==> left[|left| - suffix - 1] != right[|right| - suffix - 1]
  {
    prefix := 0;
    while prefix < |left| && prefix < |right| && left[prefix] == right[prefix]
      invariant 0 <= prefix <= |left| && prefix <= |right|
      invariant left[..prefix] == right[..prefix]
    {
      prefix := prefix + 1;
    }
    assert forall n: nat :: CommonPrefix(left, right, n) && prefix < n ==> left[..n][prefix] == right[..n][prefix];
    suffix := 0;
    while suffix < |left| - prefix && suffix < |right| - prefix && left[|left| - suffix - 1] == right[|right| - suffix - 1]
      invariant 0 <= suffix <= |left| - prefix && suffix <= |right| - prefix
      invariant left[|left| - suffix..] == right[|right| - suffix..]
    {
      suffix := suffix + 1;
      assert left[|left| - suffix..] == [left[|left| - suffix]] + left[|left| - suffix + 1..];
      assert right[|right| - suffix..] == [right[|right| - suffix]] + right[|right| - suffix + 1..];
    }
  }

  method PushFourRuns(head: seq<string>, removed: seq<string>, added: seq<string>, tail: seq<string>)
    returns (chunks: seq<Chunk>)
    ensures MaximalRuns(chunks)
    ensures Transforms(Flatten(chunks), head + removed + tail, head + added + tail)
    ensures Kept(Flatten(chunks)) == |head| + |tail|
  {
    chunks := PushAll([], Equal, head);
    chunks := PushAll(chunks, Removed, removed);
    chunks := PushAll(chunks, Added, added);
    chunks := PushAll(chunks, Equal, tail);
    FourRunsTransform(head, removed, added, tail);
  }

  /** The prefix/suffix fallback: sound, and it keeps at least the whole common prefix. */
  method PrefixSuffixDiff(left: seq<string>, right: seq<string>) returns (chunks: seq<Chunk>)
    ensures MaximalRuns(chunks)
    ensures Transforms(Flatten(chunks), left, right)
    ensures forall n: nat :: CommonPrefix(left, right, n) ==> n <= Kept(Flatten(chunks))
  {
    var prefix, suffix := CommonEnds(left, right);
    var head, removed := left[..prefix], left[prefix..|left| - suffix];
    var added, tail := right[prefix..|right| - suffix], left[|left| - suffix..];
    assert left == head + removed + tail;
    assert right == head + added + tail;
    chunks := PushFourRuns(head, removed, added, tail);
  }

  /** Where the greedy walk stands: a sound script so far, and no common line lost. */
  ghost predicate Walked(script: seq<Edit>, left: seq<string>, right: seq<string>, i: nat, j: nat)
    requires i <= |left| && j <= |right|
  {
    && Transforms(script, left[..i], right[..j])
    && Kept(script) + Lcs(left[i..], right[j..]) == Lcs(left, right)
  }

  lemma WalkEqual(script: seq<Edit>, left: seq<string>, right: seq<string>, i: nat, j: nat)
    requires i < |left| && j < |right| && left[i] == right[j] && Walked(script, left, right, i, j)
    ensures Walked(script + [Edit(Equal, left[i])], left, right, i + 1, j + 1)
  {
    ScriptAppend(script, Edit(Equal, left[i]));
    assert left[i..][1..] == left[i + 1..] && right[j..][1..] == right[j + 1..];
    assert left[..i + 1] == left[..i] + [left[i]] && right[..j + 1] == right[..j] + [right[j]];
  }

  lemma WalkAdded(script: seq<Edit>, left: seq<string>, right: seq<string>, i: nat, j: nat)
    requires i <= |left| && j < |right| && Walked(script, left, right, i, j)
    requires i < |left| ==> left[i] != right[j] && Lcs(left[i..], right[j + 1..]) > Lcs(left[i + 1..], right[j..])
    ensures Walked(script + [Edit(Added, right[j])], left, right, i, j + 1)
  {
    ScriptAppend(script, Edit(Added, right[j]));
    assert right[j..][1..] == right[j + 1..] && right[..j + 1] == right[..j] + [right[j]];
    assert left[..i] + [] == left[..i];
    if i < |left| {
      assert left[i..][1..] == left[i + 1..];
    }
  }

  lemma WalkRemoved(script: seq<Edit>, left: seq<string>, right: seq<string>, i: nat, j: nat)
    requires i < |left| && j <= |right| && Walked(script, left, right, i, j)
    requires j < |right| ==> left[i] != right[j] && Lcs(left[i..], right[j + 1..]) <= Lcs(left[i + 1..], right[j..])
    ensures Walked(script + [Edit(Removed, left[i])], left, right, i + 1, j)
  {
    ScriptAppend(script, Edit(Removed, left[i]));
    assert left[i..][1..] == left[i + 1..] && left[..i + 1] == left[..i] + [left[i]];
    assert right[..j] + [] == right[..j];
    if j < |right| {
      assert right[j..][1..] == right[j + 1..];
    }
  }

  /** One step of the walk: a line kept, added or removed. */
  method Advance(rows: array2<uint32>, left: seq<string>, right: seq<string>, before: seq<Chunk>, x: nat, y: nat)
    returns (chunks: seq<Chunk>, i: nat, j: nat)
    requires x <= |left| && y <= |right| && (x < |left| || y < |right|)
    requires IsTable(rows, left, right) && MaximalRuns(before) && Walked(Flatten(before), left, right, x, y)
    ensures x <= i <= |left| && y <= j <= |right| && x + y < i + j
    ensures MaximalRuns(chunks) && Walked(Flatten(chunks), left, right, i, j)
  {
    i, j := x, y;
    if i < |left| && j < |right| && left[i] == right[j] {
      WalkEqual(Flatten(before), left, right, i, j);
      chunks := PushChunk(before, Equal, left[i]);
      i, j := i + 1, j + 1;
    } else if j < |right| && (i >= |left| || rows[i, j + 1] > rows[i + 1, j]) {
      WalkAdded(Flatten(before), left, right, i, j);
      chunks := PushChunk(before, Added, right[j]);
      j := j + 1;
    } else {
      WalkRemoved(Flatten(before), left, right, i, j);
      chunks := PushChunk(before, Removed, left[i]);
      i := i + 1;
    }
  }

  /** The greedy walk over the table spends one common line of the remainder for each line it keeps. */
  method TableDiff(left: seq<string>, right: seq<string>) returns (chunks: seq<Chunk>)
    requires |left| > 0 && |right| > 0 && |left| <= TABLE_LIMIT
    ensures MaximalRuns(chunks)
    ensures Transforms(Flatten(chunks), left, right)
    ensures Kept(Flatten(chunks)) == Lcs(left, right)
  {
    var rows := FillTable(left, right);
    chunks := [];
    var i, j := 0, 0;
    assert left[0..] == left && right[0..] == right;
    while i < |left| || j < |right|
      invariant 0 <= i <= |left| && 0 <= j <= |right|
      invariant MaximalRuns(chunks) && IsTable(rows, left, right)
      invariant Walked(Flatten(chunks), left, right, i, j)
      decreases |left| + |right| - i - j
    {
      chunks, i, j := Advance(rows, left, right, chunks, i, j);
    }
    assert left[..|left|] == left && right[..|right|] == right;
  }

  /**
   * The diff of two texts.  It replays both texts in every case; below the table
   * limit no script whatsoever between the two texts changes fewer lines.
   */
  method LineDiff(before: string, after: string) returns (chunks: seq<Chunk>)
    ensures MaximalRuns(chunks)
    ensures Join(OldLines(Flatten(chunks))) == before
    ensures Join(NewLines(Flatten(chunks))) == after
    ensures |Split(before)| * |Split(after)| <= TABLE_LIMIT ==>
      forall other :: Transforms(other, Split(before), Split(after)) ==> Changed(Flatten(chunks)) <= Changed(other)
  {
    var left, right := Split(before), Split(after);
    if |left| * |right| > TABLE_LIMIT {
      chunks := PrefixSuffixDiff(left, right);
    } else {
      FactorIsBounded(|left|, |right|);
      chunks := TableDiff(left, right);
      forall other | Transforms(other, left, right)
        ensures Changed(Flatten(chunks)) <= Changed(other)
      {
        KeepingLcsIsMinimal(Flatten(chunks), other, left, right);
      }
    }
  }
}
