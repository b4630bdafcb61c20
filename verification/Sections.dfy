/**
 * Heading sections and section moves: the section loop of
 * client/src/intelligence/analyze.ts and moveHeadingSection of
 * client/src/intelligence/operations.ts.
 *
 * Sections nest.  From that alone it follows that "move up" always swaps two
 * adjacent blocks, while "move down" loses text exactly when a shallower heading
 * stands between the section and the neighbour it picks.
 */
module Sections {
  import opened Wrappers

  datatype Heading = Heading(level: nat, sectionFrom: nat, sectionTo: nat)
  datatype Direction = Up | Down
  datatype MoveError = NoNeighbor | StaleRange

  // ---------- The section loop ----------

  /** Headings come from the lines of a text in order, so each starts later than the one before. */
  ghost predicate Extracted(hs: seq<Heading>, n: nat)
  {
    && (forall i :: 0 <= i < |hs| ==> hs[i].sectionFrom < n)
    && (forall i, j :: 0 <= i < j < |hs| ==> hs[i].sectionFrom < hs[j].sectionFrom)
  }

  /** The first heading from index j on that is no deeper than heading i, or the end of the list. */
  function NextFrom(hs: seq<Heading>, i: nat, j: nat): (r: nat)
    requires i < j <= |hs|
    ensures j <= r <= |hs|
    ensures forall k :: j <= k < r ==> hs[k].level > hs[i].level
    ensures r < |hs| ==> hs[r].level <= hs[i].level
    decreases |hs| - j
  {
    if j == |hs| || hs[j].level <= hs[i].level then j else NextFrom(hs, i, j + 1)
  }

  function Next(hs: seq<Heading>, i: nat): nat
    requires i < |hs|
  {
    NextFrom(hs, i, i + 1)
  }

  function StartOf(hs: seq<Heading>, n: nat, j: nat): nat
    requires j <= |hs|
  {
    if j < |hs| then hs[j].sectionFrom else n
  }

  ghost predicate Sectioned(hs: seq<Heading>, n: nat)
  {
    && Extracted(hs, n)
    && forall i {:trigger Next(hs, i)} :: 0 <= i < |hs| ==> hs[i].sectionTo == StartOf(hs, n, Next(hs, i))
  }

  /** The same headings up to their section ends. */
  ghost predicate SameShape(a: seq<Heading>, b: seq<Heading>)
  {
    && |a| == |b|
    && forall k :: 0 <= k < |a| ==> a[k].level == b[k].level && a[k].sectionFrom == b[k].sectionFrom
  }

  /** Only levels and starts decide where a section ends, so overwriting ends in place is safe. */
  lemma {:induction false} NextIgnoresEnds(a: seq<Heading>, b: seq<Heading>, i: nat, j: nat)
    requires SameShape(a, b) && i < j <= |a|
    ensures NextFrom(a, i, j) == NextFrom(b, i, j)
    decreases |a| - j
  {
    if j < |a| && a[j].level > a[i].level {
      NextIgnoresEnds(a, b, i, j + 1);
    }
  }

  /** The linear search for the heading that ends a section. */
  method FindNext(headings: array<Heading>, index: nat) returns (j: nat)
    requires index < headings.Length
    ensures j == Next(headings[..], index) <= headings.Length
  {
    j := index + 1;
    while j < headings.Length && headings[j].level > headings[index].level
      invariant index < j <= headings.Length
      invariant Next(headings[..], index) == NextFrom(headings[..], index, j)
    {
      j := j + 1;
    }
  }

  /** The first `count` sections have been closed; nothing else about the list has changed. */
  ghost predicate Closed(hs: seq<Heading>, before: seq<Heading>, n: nat, count: nat)
    requires count <= |before|
  {
    && SameShape(hs, before)
    && forall i :: 0 <= i < count ==> hs[i] == before[i].(sectionTo := StartOf(before, n, Next(before, i)))
  }

  lemma ClosedIsSectioned(hs: seq<Heading>, before: seq<Heading>, n: nat)
    requires Extracted(before, n) && Closed(hs, before, n, |before|)
    ensures Sectioned(hs, n)
  {
    forall i | 0 <= i < |hs|
      ensures hs[i].sectionTo == StartOf(hs, n, Next(hs, i))
    {
      NextIgnoresEnds(hs, before, i, i + 1);
    }
  }

  method ComputeSections(headings: array<Heading>, n: nat)
    requires Extracted(headings[..], n)
    modifies headings
    ensures Sectioned(headings[..], n) && SameShape(headings[..], old(headings[..]))
  {
    ghost var before := headings[..];
    var index := 0;
    while index < headings.Length
      invariant 0 <= index <= headings.Length
      invariant Closed(headings[..], before, n, index)
    {
      var j := FindNext(headings, index);
      var end := if j < headings.Length then headings[j].sectionFrom else n;
      ghost var now := headings[..];
      headings[index] := headings[index].(sectionTo := end);
      assert headings[..] == now[index := now[index].(sectionTo := StartOf(now, n, Next(now, index)))];
      index := index + 1;
    }
    ClosedIsSectioned(headings[..], before, n);
  }

  // ---------- Nesting ----------

  lemma SectionBounds(hs: seq<Heading>, n: nat, i: nat)
    requires Sectioned(hs, n) && i < |hs|
    ensures hs[i].sectionFrom < hs[i].sectionTo == StartOf(hs, n, Next(hs, i)) <= n
  {
    var m := Next(hs, i);
    assert m < |hs| ==> hs[i].sectionFrom < hs[m].sectionFrom;
  }

  /** One section holds a later one exactly when it ends after that one starts. */
  lemma ContainsOrPrecedes(hs: seq<Heading>, n: nat, i: nat, j: nat)
    requires Sectioned(hs, n) && i < j < |hs|
    ensures j < Next(hs, i) ==> hs[j].sectionTo <= hs[i].sectionTo && hs[j].sectionFrom < hs[i].sectionTo
    ensures Next(hs, i) <= j ==> hs[i].sectionTo <= hs[j].sectionFrom
  {
    var m, k := Next(hs, i), Next(hs, j);
    assert hs[i].sectionTo == StartOf(hs, n, m) && hs[j].sectionTo == StartOf(hs, n, k);
  }

  /** Any two sections are disjoint, or the later one lies inside the earlier one. */
  lemma SectionsNest(hs: seq<Heading>, n: nat, i: nat, j: nat)
    requires Sectioned(hs, n) && i < j < |hs|
    ensures hs[i].sectionFrom < hs[j].sectionFrom < hs[j].sectionTo <= n
    ensures hs[i].sectionTo <= hs[j].sectionFrom || hs[j].sectionTo <= hs[i].sectionTo
    ensures hs[j].sectionTo <= hs[i].sectionTo <==> forall k :: i < k <= j ==> hs[k].level > hs[i].level
  {
    ContainsOrPrecedes(hs, n, i, j);
    SectionBounds(hs, n, j);
    var m := Next(hs, i);
    assert m <= j ==> hs[m].level <= hs[i].level;
  }

  // ---------- moveHeadingSection ----------

  predicate Covers(candidate: Heading, selected: Heading)
  {
    && candidate.sectionFrom < selected.sectionFrom
    && candidate.sectionTo >= selected.sectionTo
    && candidate.level < selected.level
  }

  /** The last covering heading among the first k: the source searches a reversed copy. */
  function Parent(hs: seq<Heading>, selected: Heading, k: nat): (p: Option<nat>)
    requires k <= |hs|
    ensures p.Some? ==> p.value < k && Covers(hs[p.value], selected)
    ensures p.Some? ==> forall j :: p.value < j < k ==> !Covers(hs[j], selected)
    ensures p.None? ==> forall j :: 0 <= j < k ==> !Covers(hs[j], selected)
  {
    if k == 0 then None
    else if Covers(hs[k - 1], selected) then Some(k - 1)
    else Parent(hs, selected, k - 1)
  }

  predicate IsSibling(candidate: Heading, level: nat, scopeFrom: nat, scopeTo: nat)
  {
    candidate.level == level && candidate.sectionFrom >= scopeFrom && candidate.sectionTo <= scopeTo
  }

  /** Indices, in order, of the siblings among the first k headings. */
  function Siblings(hs: seq<Heading>, level: nat, scopeFrom: nat, scopeTo: nat, k: nat): (s: seq<nat>)
    requires k <= |hs|
    ensures forall x :: 0 <= x < |s| ==> s[x] < k && IsSibling(hs[s[x]], level, scopeFrom, scopeTo)
    ensures forall x, y :: 0 <= x < y < |s| ==> s[x] < s[y]
    ensures forall j :: 0 <= j < k && IsSibling(hs[j], level, scopeFrom, scopeTo) ==> j in s
  {
    if k == 0 then []
    else
      var s := Siblings(hs, level, scopeFrom, scopeTo, k - 1);
      if IsSibling(hs[k - 1], level, scopeFrom, scopeTo) then s + [k - 1] else s
  }

  /** findIndex by start, from position x on; -1 when no sibling starts there. */
  function PositionOf(hs: seq<Heading>, siblings: seq<nat>, start: nat, x: nat): (p: int)
    requires forall y :: 0 <= y < |siblings| ==> siblings[y] < |hs|
    requires x <= |siblings|
    ensures p == -1 || x <= p < |siblings|
    ensures p == -1 ==> forall y :: x <= y < |siblings| ==> hs[siblings[y]].sectionFrom != start
    ensures p != -1 ==> hs[siblings[p]].sectionFrom == start
    decreases |siblings| - x
  {
    if x == |siblings| then -1
    else if hs[siblings[x]].sectionFrom == start then x
    else PositionOf(hs, siblings, start, x + 1)
  }

  function ScopeFrom(hs: seq<Heading>, selected: Heading): nat
  {
    var parent := Parent(hs, selected, |hs|);
    if parent.Some? then hs[parent.value].sectionFrom else 0
  }

  function ScopeTo(hs: seq<Heading>, n: nat, selected: Heading): nat
  {
    var parent := Parent(hs, selected, |hs|);
    if parent.Some? then hs[parent.value].sectionTo else n
  }

  /** The heading the move swaps with: the sibling before or after the selected one, if any. */
  function Neighbor(hs: seq<Heading>, n: nat, selected: Heading, direction: Direction): (r: Option<nat>)
    ensures r.Some? ==> r.value < |hs|
  {
    var siblings := Siblings(hs, selected.level, ScopeFrom(hs, selected), ScopeTo(hs, n, selected), |hs|);
    var position := PositionOf(hs, siblings, selected.sectionFrom, 0);
    var wanted := if direction.Up? then position - 1 else position + 1;
    if 0 <= wanted < |siblings| then Some(siblings[wanted]) else None
  }

  function ReplaceRange(text: string, from: int, to: int, replacement: string): Result<string, MoveError>
  {
    if from < 0 || to < from || to > |text| then Err(StaleRange)
    else Ok(text[..from] + replacement + text[to..])
  }

  /** A JavaScript slice: out-of-range ends are clamped. */
  function Slice(text: string, from: nat, to: nat): string
  {
    var hi := if to < |text| then to else |text|;
    if from < hi then text[from..hi] else ""
  }

  function MoveHeadingSection(text: string, hs: seq<Heading>, selected: Heading, direction: Direction)
    : Result<string, MoveError>
  {
    match Neighbor(hs, |text|, selected, direction)
    case None => Err(NoNeighbor)
    case Some(q) =>
      var neighbor := hs[q];
      var current := Slice(text, selected.sectionFrom, selected.sectionTo);
      if direction.Up? then
        var before := Slice(text, neighbor.sectionFrom, selected.sectionFrom);
        ReplaceRange(text, neighbor.sectionFrom, selected.sectionTo, current + before)
      else
        var after := Slice(text, neighbor.sectionFrom, neighbor.sectionTo);
        ReplaceRange(text, selected.sectionFrom, neighbor.sectionTo, after + current)
  }

  // ---------- What the moves do ----------

  /** A heading shallower than the section at s covers it exactly when no other heading ends it first. */
  lemma CoversIffOpen(hs: seq<Heading>, n: nat, c: nat, s: nat)
    requires Sectioned(hs, n) && s < |hs| && c < |hs|
    ensures Covers(hs[c], hs[s]) <==> c < s && s < Next(hs, c)
  {
    if c < s {
      SectionsNest(hs, n, c, s);
      ContainsOrPrecedes(hs, n, c, s);
    } else if s < c {
      assert hs[s].sectionFrom < hs[c].sectionFrom;
    }
  }

  /** Heading j stands at the level of s, inside what the parent of s covers. */
  ghost predicate Peer(hs: seq<Heading>, s: nat, j: nat)
    requires s < |hs| && j < |hs|
  {
    var parent := Parent(hs, hs[s], |hs|);
    && hs[j].level == hs[s].level
    && (parent.Some? ==> parent.value <= j && hs[j].sectionTo <= hs[parent.value].sectionTo)
  }

  lemma SiblingIffPeer(hs: seq<Heading>, n: nat, s: nat, j: nat)
    requires Sectioned(hs, n) && s < |hs| && j < |hs|
    ensures IsSibling(hs[j], hs[s].level, ScopeFrom(hs, hs[s]), ScopeTo(hs, n, hs[s])) <==> Peer(hs, s, j)
  {
    SectionBounds(hs, n, j);
    var parent := Parent(hs, hs[s], |hs|);
    if parent.Some? && parent.value != j {
      assert hs[parent.value].sectionFrom <= hs[j].sectionFrom <==> parent.value <= j;
    }
  }

  ghost predicate Increasing(s: seq<nat>) { forall x, y :: 0 <= x < y < |s| ==> s[x] < s[y] }

  lemma PickedBeside(siblings: seq<nat>, p: nat, j: nat)
    requires Increasing(siblings) && p < |siblings| && j in siblings
    ensures j < siblings[p] ==> 1 <= p && j <= siblings[p - 1]
    ensures siblings[p] < j ==> p + 1 < |siblings| && siblings[p + 1] <= j
    ensures 1 <= p ==> siblings[p - 1] < siblings[p]
    ensures p + 1 < |siblings| ==> siblings[p] < siblings[p + 1]
  {
    var y :| 0 <= y < |siblings| && siblings[y] == j;
  }

  lemma OwnPosition(hs: seq<Heading>, n: nat, siblings: seq<nat>, s: nat)
    requires Extracted(hs, n) && s in siblings && s < |hs|
    requires forall y :: 0 <= y < |siblings| ==> siblings[y] < |hs|
    ensures var p := PositionOf(hs, siblings, hs[s].sectionFrom, 0);
      0 <= p < |siblings| && siblings[p] == s
  {
    var x :| 0 <= x < |siblings| && siblings[x] == s;
    var p := PositionOf(hs, siblings, hs[s].sectionFrom, 0);
    assert p != -1;
    var t := siblings[p];
    assert hs[t].sectionFrom == hs[s].sectionFrom;
  }

  /** The list the move searches holds exactly the peers, in order. */
  lemma SiblingsArePeers(hs: seq<Heading>, n: nat, s: nat, j: nat)
    requires Sectioned(hs, n) && s < |hs| && j < |hs|
    ensures var siblings := Siblings(hs, hs[s].level, ScopeFrom(hs, hs[s]), ScopeTo(hs, n, hs[s]), |hs|);
      Increasing(siblings) && (j in siblings <==> Peer(hs, s, j))
  {
    SiblingIffPeer(hs, n, s, j);
  }

  /** The list the move searches, the section's place in it, and the neighbour beside that place. */
  lemma SearchedList(hs: seq<Heading>, n: nat, s: nat, direction: Direction) returns (siblings: seq<nat>, p: nat)
    requires Sectioned(hs, n) && s < |hs|
    ensures Increasing(siblings) && p < |siblings| && siblings[p] == s
    ensures forall y :: 0 <= y < |siblings| ==> siblings[y] < |hs|
    ensures forall j :: 0 <= j < |hs| ==> (j in siblings <==> Peer(hs, s, j))
    ensures var wanted := if direction.Up? then p - 1 else p + 1;
      Neighbor(hs, n, hs[s], direction) == if 0 <= wanted < |siblings| then Some(siblings[wanted]) else None
  {
    siblings := Searched(hs, n, s);
    OwnPosition(hs, n, siblings, s);
    p := PositionOf(hs, siblings, hs[s].sectionFrom, 0);
  }

  lemma Searched(hs: seq<Heading>, n: nat, s: nat) returns (siblings: seq<nat>)
    requires Sectioned(hs, n) && s < |hs|
    ensures siblings == Siblings(hs, hs[s].level, ScopeFrom(hs, hs[s]), ScopeTo(hs, n, hs[s]), |hs|)
    ensures Increasing(siblings) && s in siblings
    ensures forall y :: 0 <= y < |siblings| ==> siblings[y] < |hs|
    ensures forall j :: 0 <= j < |hs| ==> (j in siblings <==> Peer(hs, s, j))
  {
    siblings := Siblings(hs, hs[s].level, ScopeFrom(hs, hs[s]), ScopeTo(hs, n, hs[s]), |hs|);
    OwnPeer(hs, n, s);
    SiblingsArePeers(hs, n, s, s);
    forall j | 0 <= j < |hs|
      ensures j in siblings <==> Peer(hs, s, j)
    {
      SiblingsArePeers(hs, n, s, j);
    }
  }

  /** No peer stands between a section and the neighbour the move picks, on either side. */
  lemma NeighborIsNearestPeer(hs: seq<Heading>, n: nat, s: nat, direction: Direction, j: nat)
    requires Sectioned(hs, n) && s < |hs| && j < |hs|
    ensures var q := Neighbor(hs, n, hs[s], direction);
      && (q.Some? && direction.Up? ==> q.value < s && Peer(hs, s, q.value) && (Peer(hs, s, j) && j < s ==> j <= q.value))
      && (q.Some? && direction.Down? ==> s < q.value && Peer(hs, s, q.value) && (Peer(hs, s, j) && s < j ==> q.value <= j))
      && (q.None? && Peer(hs, s, j) ==> if direction.Up? then s <= j else j <= s)
  {
    var siblings, p := SearchedList(hs, n, s, direction);
    PickedBeside(siblings, p, s);
    var q := Neighbor(hs, n, hs[s], direction);
    if q.Some? {
      assert q.value in siblings;
    }
    if Peer(hs, s, j) {
      PickedBeside(siblings, p, j);
    }
  }

  lemma OwnPeer(hs: seq<Heading>, n: nat, s: nat)
    requires Sectioned(hs, n) && s < |hs|
    ensures Peer(hs, s, s)
  {
    var parent := Parent(hs, hs[s], |hs|);
    if parent.Some? {
      CoversIffOpen(hs, n, parent.value, s);
    }
  }

  /** The previous sibling ends exactly where the section starts. */
  lemma PreviousSiblingIsAdjacent(hs: seq<Heading>, n: nat, s: nat)
    requires Sectioned(hs, n) && s < |hs| && Neighbor(hs, n, hs[s], Up).Some?
    ensures hs[Neighbor(hs, n, hs[s], Up).value].sectionTo == hs[s].sectionFrom
  {
    NeighborIsNearestPeer(hs, n, s, Up, s);
    var q := Neighbor(hs, n, hs[s], Up).value;
    var m := Next(hs, q);
    assert m <= s;
    if m < s {
      var z := LastAtOrAbove(hs, s, m);
      NeighborIsNearestPeer(hs, n, s, Up, z);
      if hs[z].level < hs[s].level {
        // z covers the section, so the parent is z or later and q is out of scope.
        CoversIffOpen(hs, n, z, s);
      } else {
        // z is a nearer sibling than q.
        PeerBetween(hs, n, s, q, z);
      }
    }
  }

  /** The last heading in m..s that is no deeper than the one at s. */
  lemma {:induction false} LastAtOrAbove(hs: seq<Heading>, s: nat, m: nat) returns (z: nat)
    requires m < s < |hs| && hs[m].level <= hs[s].level
    ensures m <= z < s && hs[z].level <= hs[s].level
    ensures forall k :: z < k < s ==> hs[k].level > hs[s].level
    decreases s - m
  {
    z := s - 1;
    while hs[z].level > hs[s].level
      invariant m <= z < s
      invariant forall k :: z < k < s ==> hs[k].level > hs[s].level
      decreases z
    {
      z := z - 1;
    }
  }

  /** A same-level heading between a peer and the section is a peer too. */
  lemma PeerBetween(hs: seq<Heading>, n: nat, s: nat, q: nat, z: nat)
    requires Sectioned(hs, n) && q < z < s < |hs| && Peer(hs, s, q)
    requires hs[z].level == hs[s].level
    ensures Peer(hs, s, z)
  {
    var parent := Parent(hs, hs[s], |hs|);
    if parent.Some? {
      CoversIffOpen(hs, n, parent.value, s);
      ContainsOrPrecedes(hs, n, parent.value, z);
    }
  }

  /** The text with the adjacent blocks a..b and b..c exchanged. */
  function SwapBlocks(text: string, a: nat, b: nat, c: nat): string
    requires a <= b <= c <= |text|
  {
    text[..a] + text[b..c] + text[a..b] + text[c..]
  }

  lemma SwapKeepsEveryCharacter(text: string, a: nat, b: nat, c: nat)
    requires a <= b <= c <= |text|
    ensures multiset(SwapBlocks(text, a, b, c)) == multiset(text)
    ensures |SwapBlocks(text, a, b, c)| == |text|
  {
    assert text == text[..a] + text[a..b] + text[b..c] + text[c..];
  }

  /** "Move up" exchanges the section with the sibling section directly before it, or refuses. */
  lemma MoveUpSwapsNeighbours(text: string, hs: seq<Heading>, s: nat)
    requires Sectioned(hs, |text|) && s < |hs|
    ensures var r, q := MoveHeadingSection(text, hs, hs[s], Up), Neighbor(hs, |text|, hs[s], Up);
      && (q.None? ==> r == Err(NoNeighbor))
      && (q.Some? ==>
        && hs[q.value].sectionFrom < hs[q.value].sectionTo == hs[s].sectionFrom < hs[s].sectionTo <= |text|
        && r == Ok(SwapBlocks(text, hs[q.value].sectionFrom, hs[s].sectionFrom, hs[s].sectionTo))
        && multiset(r.value) == multiset(text))
  {
    var q := Neighbor(hs, |text|, hs[s], Up);
    if q.Some? {
      PreviousSiblingIsAdjacent(hs, |text|, s);
      NeighborIsNearestPeer(hs, |text|, s, Up, s);
      SectionsNest(hs, |text|, q.value, s);
      var a, b, c := hs[q.value].sectionFrom, hs[s].sectionFrom, hs[s].sectionTo;
      SwapKeepsEveryCharacter(text, a, b, c);
      assert text[..a] + (text[b..c] + text[a..b]) + text[c..] == SwapBlocks(text, a, b, c);
    }
  }

  /** The guard a caller of "move down" would have to check: the next heading no deeper is a peer. */
  predicate PeerFollows(hs: seq<Heading>, s: nat)
    requires s < |hs|
  {
    Next(hs, s) < |hs| && hs[Next(hs, s)].level == hs[s].level
  }

  /** The next sibling starts where the section ends exactly when a peer follows it. */
  lemma NextSiblingAdjacency(hs: seq<Heading>, n: nat, s: nat)
    requires Sectioned(hs, n) && s < |hs| && Neighbor(hs, n, hs[s], Down).Some?
    ensures var q := Neighbor(hs, n, hs[s], Down).value;
      && s < q && hs[s].sectionTo <= hs[q].sectionFrom
      && (hs[q].sectionFrom == hs[s].sectionTo <==> PeerFollows(hs, s))
  {
    var q, m := Neighbor(hs, n, hs[s], Down).value, Next(hs, s);
    NeighborIsNearestPeer(hs, n, s, Down, if m < |hs| then m else s);
    SectionBounds(hs, n, s);
    if PeerFollows(hs, s) {
      FollowingPeer(hs, n, s);
    } else {
      assert m < q;
    }
  }

  lemma FollowingPeer(hs: seq<Heading>, n: nat, s: nat)
    requires Sectioned(hs, n) && s < |hs| && PeerFollows(hs, s)
    ensures Peer(hs, s, Next(hs, s))
  {
    var parent, m := Parent(hs, hs[s], |hs|), Next(hs, s);
    if parent.Some? {
      CoversIffOpen(hs, n, parent.value, s);
      assert m < Next(hs, parent.value);
      ContainsOrPrecedes(hs, n, parent.value, m);
    }
  }

  lemma SwapAcrossGap(text: string, a: nat, b: nat, c: nat, d: nat)
    requires a <= b <= c <= d <= |text|
    ensures var result := text[..a] + (text[c..d] + text[a..b]) + text[d..];
      && multiset(text) == multiset(result) + multiset(text[b..c])
      && |text| == |result| + (c - b)
      && (b == c ==> result == SwapBlocks(text, a, b, d))
  {
    assert text == text[..a] + text[a..b] + text[b..c] + text[c..d] + text[d..];
  }

  /**
   * "Move down" keeps every character exactly when a peer follows the section.
   * Otherwise precisely the text between the section and the chosen neighbour is lost.
   */
  lemma MoveDownLosesTheGap(text: string, hs: seq<Heading>, s: nat)
    requires Sectioned(hs, |text|) && s < |hs|
    ensures var r, q := MoveHeadingSection(text, hs, hs[s], Down), Neighbor(hs, |text|, hs[s], Down);
      && (q.None? ==> r == Err(NoNeighbor))
      && (q.Some? ==>
        && r.Ok? && hs[s].sectionTo <= hs[q.value].sectionFrom <= |text|
        && multiset(text) == multiset(r.value) + multiset(text[hs[s].sectionTo..hs[q.value].sectionFrom])
        && (|r.value| == |text| <==> PeerFollows(hs, s))
        && (PeerFollows(hs, s) ==>
          r.value == SwapBlocks(text, hs[s].sectionFrom, hs[s].sectionTo, hs[q.value].sectionTo)))
  {
    var q := Neighbor(hs, |text|, hs[s], Down);
    if q.Some? {
      NextSiblingAdjacency(hs, |text|, s);
      SectionsNest(hs, |text|, s, q.value);
      var a, b, c, d := hs[s].sectionFrom, hs[s].sectionTo, hs[q.value].sectionFrom, hs[q.value].sectionTo;
      SwapAcrossGap(text, a, b, c, d);
    }
  }

  lemma DownNeighbor(hs: seq<Heading>, n: nat, s: nat)
    requires Sectioned(hs, n) && s < |hs| && PeerFollows(hs, s)
    ensures Neighbor(hs, n, hs[s], Down) == Some(Next(hs, s))
  {
    var m := Next(hs, s);
    FollowingPeer(hs, n, s);
    NeighborIsNearestPeer(hs, n, s, Down, m);
    NextSiblingAdjacency(hs, n, s);
    var q := Neighbor(hs, n, hs[s], Down).value;
    SectionBounds(hs, n, s);
    assert hs[q].sectionFrom == hs[m].sectionFrom;
  }

  lemma UpNeighbor(hs: seq<Heading>, n: nat, s: nat)
    requires Sectioned(hs, n) && s < |hs| && PeerFollows(hs, s)
    ensures Neighbor(hs, n, hs[Next(hs, s)], Up) == Some(s)
  {
    var m := Next(hs, s);
    PeerBefore(hs, n, s);
    NeighborIsNearestPeer(hs, n, m, Up, s);
    var q := Neighbor(hs, n, hs[m], Up);
    assert q.Some? && s <= q.value < m;
    assert hs[q.value].level == hs[m].level == hs[s].level;
  }

  lemma PeerBefore(hs: seq<Heading>, n: nat, s: nat)
    requires Sectioned(hs, n) && s < |hs| && PeerFollows(hs, s)
    ensures s < Next(hs, s) && Peer(hs, Next(hs, s), s)
    ensures forall k :: s < k < Next(hs, s) ==> hs[k].level > hs[s].level
  {
    SameParent(hs, n, s);
    OwnPeer(hs, n, s);
  }

  /** When a peer follows, moving a section down and moving that peer up are the same edit. */
  lemma DownIsPeerUp(text: string, hs: seq<Heading>, s: nat)
    requires Sectioned(hs, |text|) && s < |hs| && PeerFollows(hs, s)
    ensures MoveHeadingSection(text, hs, hs[s], Down).Ok?
    ensures MoveHeadingSection(text, hs, hs[s], Down) == MoveHeadingSection(text, hs, hs[Next(hs, s)], Up)
  {
    DownNeighbor(hs, |text|, s);
    UpNeighbor(hs, |text|, s);
    SectionBounds(hs, |text|, s);
    MoveDownLosesTheGap(text, hs, s);
    MoveUpSwapsNeighbours(text, hs, Next(hs, s));
  }

  lemma SameParent(hs: seq<Heading>, n: nat, s: nat)
    requires Sectioned(hs, n) && s < |hs| && PeerFollows(hs, s)
    ensures Parent(hs, hs[s], |hs|) == Parent(hs, hs[Next(hs, s)], |hs|)
  {
    var m := Next(hs, s);
    forall c | 0 <= c < |hs|
      ensures Covers(hs[c], hs[s]) <==> Covers(hs[c], hs[m])
    {
      CoversIffOpen(hs, n, c, s);
      CoversIffOpen(hs, n, c, m);
    }
  }

  const EXAMPLE := "# A\n### B\n## C\n### D\n"
  const EXAMPLE_HEADINGS := [Heading(1, 0, 21), Heading(3, 4, 10), Heading(2, 10, 21), Heading(3, 15, 21)]

  lemma ExampleSections()
    ensures Sectioned(EXAMPLE_HEADINGS, 21)
  {
    var hs := EXAMPLE_HEADINGS;
    assert Next(hs, 0) == 4 && Next(hs, 1) == 2 && Next(hs, 2) == 4 && Next(hs, 3) == 4;
  }

  lemma ExampleNeighbor()
    ensures Sectioned(EXAMPLE_HEADINGS, 21)
    ensures Neighbor(EXAMPLE_HEADINGS, 21, EXAMPLE_HEADINGS[1], Down) == Some(3)
  {
    var hs := EXAMPLE_HEADINGS;
    ExampleSections();
    NeighborIsNearestPeer(hs, 21, 1, Down, 3);
    var parent := Parent(hs, hs[1], |hs|);
    assert Covers(hs[0], hs[1]);
    assert parent == Some(0);
    assert Peer(hs, 1, 3);
  }

  /** Moving "### B" down past "## C" drops the heading "## C" from the document. */
  lemma MoveDownCanDropAHeading()
    ensures Sectioned(EXAMPLE_HEADINGS, |EXAMPLE|)
    ensures MoveHeadingSection(EXAMPLE, EXAMPLE_HEADINGS, EXAMPLE_HEADINGS[1], Down) == Ok("# A\n### D\n### B\n")
  {
    var text := EXAMPLE;
    ExampleNeighbor();
    var head, b, d := text[..4], text[4..10], text[15..21];
    assert head == "# A\n" && b == "### B\n" && d == "### D\n" && text[21..] == "";
    assert d + b == "### D\n### B\n";
    assert head + (d + b) + "" == "# A\n### D\n### B\n";
  }
}
