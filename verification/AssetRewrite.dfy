/**
 * Asset URL rewriting with a trie: rewriteKnownAssetUrls of
 * client/src/lib/portable-bundle.ts.
 *
 * The single pass over a mutable trie is proved equal to naive leftmost-longest
 * replacement, which is defined here without any trie.
 */
module AssetRewrite {
  import opened Wrappers

  datatype Asset = Asset(url: string, path: string)

  // ---------- Naive leftmost-longest replacement ----------

  /** The text between two positions, read one character at a time. */
  function Cut(s: string, from: nat, to: nat): (r: string)
    requires from <= to <= |s|
    ensures |r| == to - from
  {
    if from == to then [] else Cut(s, from, to - 1) + [s[to - 1]]
  }

  lemma {:induction false} CutIsSlice(s: string, from: nat, to: nat)
    requires from <= to <= |s|
    ensures Cut(s, from, to) == s[from..to]
  {
    if from < to {
      CutIsSlice(s, from, to - 1);
      assert s[from..to] == s[from..to - 1] + [s[to - 1]];
    }
  }

  lemma CutSplit(s: string, from: nat, middle: nat, to: nat)
    requires from <= middle <= to <= |s|
    ensures Cut(s, from, to) == Cut(s, from, middle) + Cut(s, middle, to)
  {
    CutIsSlice(s, from, middle);
    CutIsSlice(s, middle, to);
    CutIsSlice(s, from, to);
  }

  lemma CutPrefix(s: string, from: nat, to: nat, n: nat)
    requires from <= to <= |s| && from + n <= to
    ensures Cut(s, from, to)[..n] == Cut(s, from, from + n)
  {
    CutIsSlice(s, from, from + n);
    CutIsSlice(s, from, to);
  }

  /** A nonempty URL stands in the source at this position. */
  predicate OccursAt(url: string, source: string, at: nat)
  {
    url != [] && at + |url| <= |source| && Cut(source, at, at + |url|) == url
  }

  /** Asset i is the longest known URL at a position; of equal URLs the last one listed wins. */
  ghost predicate IsChoice(assets: seq<Asset>, source: string, at: nat, i: nat)
  {
    && i < |assets| && OccursAt(assets[i].url, source, at)
    && forall j :: 0 <= j < |assets| && OccursAt(assets[j].url, source, at) ==>
         |assets[j].url| < |assets[i].url| || (|assets[j].url| == |assets[i].url| && j <= i)
  }

  ghost predicate NothingOccurs(assets: seq<Asset>, source: string, at: nat)
  {
    forall j :: 0 <= j < |assets| ==> !OccursAt(assets[j].url, source, at)
  }

  /** The choice among the first k assets at a position, by trying each in turn. */
  function ChoiceOf(assets: seq<Asset>, k: nat, source: string, at: nat): (r: Option<nat>)
    requires k <= |assets|
    ensures r.Some? ==> r.value < k && OccursAt(assets[r.value].url, source, at)
  {
    if k == 0 then None
    else
      var earlier := ChoiceOf(assets, k - 1, source, at);
      if OccursAt(assets[k - 1].url, source, at)
         && (earlier.None? || |assets[earlier.value].url| <= |assets[k - 1].url|) then Some(k - 1)
      else earlier
  }

  function Choice(assets: seq<Asset>, source: string, at: nat): (r: Option<nat>)
    ensures r.Some? ==> r.value < |assets| && OccursAt(assets[r.value].url, source, at)
  {
    ChoiceOf(assets, |assets|, source, at)
  }

  lemma {:induction false} ChoiceBeats(assets: seq<Asset>, k: nat, source: string, at: nat, j: nat)
    requires j < k <= |assets| && OccursAt(assets[j].url, source, at)
    ensures var r := ChoiceOf(assets, k, source, at);
      && r.Some?
      && (|assets[j].url| < |assets[r.value].url| || (|assets[j].url| == |assets[r.value].url| && j <= r.value))
  {
    if j < k - 1 {
      ChoiceBeats(assets, k - 1, source, at, j);
    }
  }

  lemma ChoiceIsLongest(assets: seq<Asset>, source: string, at: nat)
    ensures match Choice(assets, source, at)
      case Some(i) => IsChoice(assets, source, at, i)
      case None => NothingOccurs(assets, source, at)
  {
    forall j | 0 <= j < |assets| && OccursAt(assets[j].url, source, at)
      ensures var r := Choice(assets, source, at);
        && r.Some?
        && (|assets[j].url| < |assets[r.value].url| || (|assets[j].url| == |assets[r.value].url| && j <= r.value))
    {
      ChoiceBeats(assets, |assets|, source, at, j);
    }
  }

  /** There is at most one choice at a position. */
  lemma ChoiceUnique(assets: seq<Asset>, source: string, at: nat, i: nat)
    requires IsChoice(assets, source, at, i)
    ensures Choice(assets, source, at) == Some(i)
  {
    ChoiceBeats(assets, |assets|, source, at, i);
    var r := Choice(assets, source, at).value;
    assert OccursAt(assets[r].url, source, at);
  }

  datatype Piece = Plain(unit: char) | Reference(asset: nat)

  /** How the source falls apart from a position on: untouched characters and chosen references. */
  function Pieces(assets: seq<Asset>, source: string, at: nat): seq<Piece>
    requires at <= |source|
    decreases |source| - at
  {
    if at == |source| then []
    else
      match Choice(assets, source, at)
      case None => [Plain(source[at])] + Pieces(assets, source, at + 1)
      case Some(i) => [Reference(i)] + Pieces(assets, source, at + |assets[i].url|)
  }

  function Before(assets: seq<Asset>, piece: Piece): string
  {
    match piece case Plain(c) => [c] case Reference(i) => if i < |assets| then assets[i].url else ""
  }

  function After(assets: seq<Asset>, piece: Piece): string
  {
    match piece case Plain(c) => [c] case Reference(i) => if i < |assets| then assets[i].path else ""
  }

  /** What the first n pieces stood for in the source. */
  function Original(assets: seq<Asset>, pieces: seq<Piece>, n: nat): string
    requires n <= |pieces|
  {
    if n == 0 then [] else Original(assets, pieces, n - 1) + Before(assets, pieces[n - 1])
  }

  /** What the first n pieces come out as. */
  function Rendered(assets: seq<Asset>, pieces: seq<Piece>, n: nat): string
    requires n <= |pieces|
  {
    if n == 0 then [] else Rendered(assets, pieces, n - 1) + After(assets, pieces[n - 1])
  }

  ghost predicate Refers(pieces: seq<Piece>, n: nat, i: nat)
    requires n <= |pieces|
  {
    exists m :: 0 <= m < n && pieces[m] == Reference(i)
  }

  /**
   * Reading left to right, each piece is what leftmost-longest replacement demands
   * at its own position of the original source: nothing is matched twice and
   * replacement text is never looked at again.
   */
  ghost predicate LeftmostLongest(assets: seq<Asset>, source: string, at: nat, pieces: seq<Piece>)
    requires at <= |source|
    decreases |source| - at
  {
    if at == |source| then pieces == []
    else
      && pieces != []
      && match pieces[0]
         case Plain(c) =>
           c == source[at] && NothingOccurs(assets, source, at) && LeftmostLongest(assets, source, at + 1, pieces[1..])
         case Reference(i) =>
           IsChoice(assets, source, at, i) && LeftmostLongest(assets, source, at + |assets[i].url|, pieces[1..])
  }

  /** Where the piece at a position ends. */
  function End(assets: seq<Asset>, source: string, at: nat): (next: nat)
    requires at < |source|
    ensures at < next <= |source|
  {
    match Choice(assets, source, at) case None => at + 1 case Some(i) => at + |assets[i].url|
  }

  /** The naive division is leftmost-longest. */
  lemma {:induction false} DivisionIsLeftmostLongest(assets: seq<Asset>, source: string, at: nat)
    requires at <= |source|
    ensures LeftmostLongest(assets, source, at, Pieces(assets, source, at))
    decreases |source| - at
  {
    if at < |source| {
      ChoiceIsLongest(assets, source, at);
      var here := Pieces(assets, source, at);
      var next := End(assets, source, at);
      DivisionIsLeftmostLongest(assets, source, next);
      assert here[1..] == Pieces(assets, source, next);
    }
  }

  /** No other division is leftmost-longest. */
  lemma {:induction false} DivisionIsUnique(assets: seq<Asset>, source: string, at: nat, pieces: seq<Piece>)
    requires at <= |source| && LeftmostLongest(assets, source, at, pieces)
    ensures pieces == Pieces(assets, source, at)
    decreases |source| - at
  {
    if at < |source| {
      match pieces[0] {
        case Plain(_) => assert Choice(assets, source, at).None?;
        case Reference(i) => ChoiceUnique(assets, source, at, i);
      }
      var next := End(assets, source, at);
      DivisionIsUnique(assets, source, next, pieces[1..]);
      var here := Pieces(assets, source, at);
      assert here[0] == pieces[0] && here[1..] == Pieces(assets, source, next);
      HeadAndTail(here, pieces);
    }
  }

  lemma HeadAndTail(a: seq<Piece>, b: seq<Piece>)
    requires a != [] && b != [] && a[0] == b[0] && a[1..] == b[1..]
    ensures a == b
  {
    assert a == [a[0]] + a[1..] && b == [b[0]] + b[1..];
  }

  /** Where the division stands before piece n, and what piece n is. */
  ghost predicate AheadIs(assets: seq<Asset>, source: string, all: seq<Piece>, n: nat, at: nat)
  {
    n <= |all| && at <= |source| && all[n..] == Pieces(assets, source, at)
  }

  lemma NextPiece(assets: seq<Asset>, source: string, all: seq<Piece>, n: nat, at: nat)
    requires AheadIs(assets, source, all, n, at) && at < |source|
    ensures n < |all| && AheadIs(assets, source, all, n + 1, End(assets, source, at))
    ensures all[n] == match Choice(assets, source, at) case None => Plain(source[at]) case Some(i) => Reference(i)
  {
    var here := Pieces(assets, source, at);
    assert here[1..] == Pieces(assets, source, End(assets, source, at));
    assert all[n..][0] == all[n] && all[n..][1..] == all[n + 1..];
  }

  /** Put back together, the pieces are the source. */
  lemma {:induction false} DivisionCoversSource(assets: seq<Asset>, source: string, all: seq<Piece>, n: nat, at: nat)
    requires AheadIs(assets, source, all, n, at) && Original(assets, all, n) == Cut(source, 0, at)
    ensures Original(assets, all, |all|) == Cut(source, 0, |source|)
    decreases |source| - at
  {
    if at < |source| {
      PieceCoversSource(assets, source, all, n, at);
      DivisionCoversSource(assets, source, all, n + 1, End(assets, source, at));
    }
  }

  lemma PieceCoversSource(assets: seq<Asset>, source: string, all: seq<Piece>, n: nat, at: nat)
    requires AheadIs(assets, source, all, n, at) && at < |source| && Original(assets, all, n) == Cut(source, 0, at)
    ensures n < |all| && AheadIs(assets, source, all, n + 1, End(assets, source, at))
    ensures Original(assets, all, n + 1) == Cut(source, 0, End(assets, source, at))
  {
    NextPiece(assets, source, all, n, at);
    var next := End(assets, source, at);
    CutSplit(source, 0, at, next);
    assert Cut(source, at, at) == [];
    assert Before(assets, all[n]) == Cut(source, at, next);
  }

  // ---------- The trie ----------

  class TrieNode {
    var children: map<char, TrieNode>
    var assetIndex: Option<nat>

    constructor ()
      ensures children == map[] && assetIndex == None
    {
      children, assetIndex := map[], None;
    }
  }

  /** The last of the first k assets with exactly this (nonempty) URL. */
  function LastWith(assets: seq<Asset>, k: nat, url: string): (r: Option<nat>)
    requires k <= |assets|
    ensures r.Some? ==> r.value < k && assets[r.value].url == url != []
  {
    if k == 0 || url == [] then None
    else if assets[k - 1].url == url then Some(k - 1)
    else LastWith(assets, k - 1, url)
  }

  lemma {:induction false} LastWithIsLast(assets: seq<Asset>, k: nat, j: nat)
    requires j < k <= |assets| && assets[j].url != []
    ensures LastWith(assets, k, assets[j].url).Some?
    ensures j <= LastWith(assets, k, assets[j].url).value
  {
    if assets[k - 1].url != assets[j].url {
      LastWithIsLast(assets, k - 1, j);
    }
  }

  /** The name of a child node. */
  function Snoc(p: string, c: char): string { p + [c] }

  /** A child for a character stands for the path with that character added, and every path is reached so. */
  ghost predicate Branching(nodes: map<string, TrieNode>, root: TrieNode, repr: set<TrieNode>)
    reads repr
  {
    && [] in nodes && nodes[[]] == root
    && (forall p :: p in nodes ==> nodes[p] in repr)
    && (forall p, c {:trigger nodes[p].children[c]} :: p in nodes && c in nodes[p].children ==>
          Snoc(p, c) in nodes && nodes[p].children[c] == nodes[Snoc(p, c)])
    && (forall p, c {:trigger Snoc(p, c)} :: Snoc(p, c) in nodes ==> p in nodes && c in nodes[p].children)
  }

  /** The nodes, named by the text that leads to them, hang together as one tree under the root. */
  ghost predicate Linked(nodes: map<string, TrieNode>, root: TrieNode, repr: set<TrieNode>)
    reads repr
  {
    && Branching(nodes, root, repr)
    && (forall p, q :: p in nodes && q in nodes && p != q ==> nodes[p] != nodes[q])
  }

  /** Every URL among the first k has its node, and each node names the last asset with its path as URL. */
  ghost predicate Knows(nodes: map<string, TrieNode>, repr: set<TrieNode>, assets: seq<Asset>, k: nat)
    requires k <= |assets|
    reads repr
  {
    && (forall i :: 0 <= i < k ==> assets[i].url in nodes)
    && (forall p {:trigger nodes[p]} :: p in nodes ==> nodes[p] in repr && nodes[p].assetIndex == LastWith(assets, k, p))
  }

  /** The trie knows exactly the first k assets. */
  ghost predicate Represents(nodes: map<string, TrieNode>, root: TrieNode, repr: set<TrieNode>, assets: seq<Asset>, k: nat)
    requires k <= |assets|
    reads repr
  {
    Linked(nodes, root, repr) && Knows(nodes, repr, assets, k)
  }

  lemma {:induction false} PrefixesPresent(nodes: map<string, TrieNode>, root: TrieNode, repr: set<TrieNode>, p: string, n: nat)
    requires Branching(nodes, root, repr) && p in nodes && n <= |p|
    ensures p[..n] in nodes
    decreases |p|
  {
    if n < |p| {
      assert p == Snoc(p[..|p| - 1], p[|p| - 1]);
      PrefixesPresent(nodes, root, repr, p[..|p| - 1], n);
      assert p[..|p| - 1][..n] == p[..n];
    } else {
      assert p[..n] == p;
    }
  }

  lemma SnocInjective(p: string, c: char)
    ensures forall q, d {:trigger Snoc(q, d)} :: Snoc(q, d) == Snoc(p, c) ==> q == p && d == c
  {
    forall q, d | Snoc(q, d) == Snoc(p, c)
      ensures q == p && d == c
    {
      assert |Snoc(q, d)| == |Snoc(p, c)|;
      assert q == Snoc(q, d)[..|q|] && p == Snoc(p, c)[..|p|];
      assert Snoc(q, d)[|q|] == d && Snoc(p, c)[|p|] == c;
    }
  }

  /** The tree with a fresh child hung under `path` is still one tree. */
  method AddChild(node: TrieNode, c: char, ghost nodes: map<string, TrieNode>, ghost root: TrieNode,
                  ghost repr: set<TrieNode>, ghost path: string)
    returns (child: TrieNode, ghost grown: map<string, TrieNode>)
    requires Linked(nodes, root, repr) && path in nodes && nodes[path] == node && c !in node.children
    modifies node`children
    ensures Linked(grown, root, repr + {child}) && Snoc(path, c) !in nodes && grown == nodes[Snoc(path, c) := child]
    ensures fresh(child) && child.assetIndex == None
  {
    child := new TrieNode();
    ghost var name := Snoc(path, c);
    assert name !in nodes;
    SnocInjective(path, c);
    grown := nodes[name := child];
    node.children := node.children[c := child];
  }

  /** One step down from the node for `path`, creating the child when it is missing. */
  method Descend(assets: seq<Asset>, ghost k: nat, node: TrieNode, c: char, ghost nodes: map<string, TrieNode>,
                 ghost root: TrieNode, ghost repr: set<TrieNode>, ghost path: string)
    returns (child: TrieNode, ghost grown: map<string, TrieNode>, ghost more: set<TrieNode>)
    requires k <= |assets| && Represents(nodes, root, repr, assets, k) && path in nodes && nodes[path] == node
    modifies node`children
    ensures Represents(grown, root, more, assets, k) && repr <= more && fresh(more - repr)
    ensures Snoc(path, c) in grown && grown[Snoc(path, c)] == child
  {
    if c in node.children {
      child, grown, more := node.children[c], nodes, repr;
    } else {
      child, grown := AddChild(node, c, nodes, root, repr, path);
      more := repr + {child};
      assert LastWith(assets, k, Snoc(path, c)) == None;
    }
  }

  /** Marks the node where URL k ends. */
  method Mark(assets: seq<Asset>, k: nat, node: TrieNode, ghost nodes: map<string, TrieNode>, ghost root: TrieNode,
              ghost repr: set<TrieNode>)
    requires k < |assets| && Represents(nodes, root, repr, assets, k)
    requires assets[k].url in nodes && nodes[assets[k].url] == node
    modifies node`assetIndex
    ensures Represents(nodes, root, repr, assets, k + 1)
  {
    if |assets[k].url| > 0 {
      node.assetIndex := Some(k);
    }
  }

  /** Walks one URL down from the root, creating nodes, and marks where it ends. */
  method InsertUrl(assets: seq<Asset>, k: nat, root: TrieNode, ghost nodes: map<string, TrieNode>, ghost repr: set<TrieNode>)
    returns (ghost grown: map<string, TrieNode>, ghost more: set<TrieNode>)
    requires k < |assets| && Represents(nodes, root, repr, assets, k)
    modifies repr
    ensures Represents(grown, root, more, assets, k + 1) && repr <= more && fresh(more - repr)
  {
    var url := assets[k].url;
    var node := root;
    var index := 0;
    grown, more := nodes, repr;
    while index < |url|
      invariant 0 <= index <= |url|
      invariant Represents(grown, root, more, assets, k) && repr <= more && fresh(more - repr)
      invariant Cut(url, 0, index) in grown && grown[Cut(url, 0, index)] == node
    {
      assert Cut(url, 0, index + 1) == Snoc(Cut(url, 0, index), url[index]);
      node, grown, more := Descend(assets, k, node, url[index], grown, root, more, Cut(url, 0, index));
      index := index + 1;
    }
    CutIsSlice(url, 0, |url|);
    assert url[0..|url|] == url;
    Mark(assets, k, node, grown, root, more);
  }

  /** A lone root knows no asset. */
  method NewTrie(assets: seq<Asset>) returns (root: TrieNode, ghost nodes: map<string, TrieNode>)
    ensures fresh(root) && Represents(nodes, root, {root}, assets, 0)
  {
    root := new TrieNode();
    nodes := map[[] := root];
    assert forall p, c {:trigger Snoc(p, c)} :: |Snoc(p, c)| > 0;
  }

  method BuildTrie(assets: seq<Asset>) returns (root: TrieNode, ghost nodes: map<string, TrieNode>, ghost repr: set<TrieNode>)
    ensures Represents(nodes, root, repr, assets, |assets|)
  {
    root, nodes := NewTrie(assets);
    repr := {root};
    var assetIndex := 0;
    while assetIndex < |assets|
      invariant 0 <= assetIndex <= |assets|
      invariant Represents(nodes, root, repr, assets, assetIndex) && fresh(repr)
    {
      nodes, repr := InsertUrl(assets, assetIndex, root, nodes, repr);
      assetIndex := assetIndex + 1;
    }
  }

  // ---------- The scan ----------

  /** No known URL that occurs here reaches past `to`: the trie has no branch for it. */
  lemma NoLongerMatch(assets: seq<Asset>, nodes: map<string, TrieNode>, root: TrieNode, repr: set<TrieNode>, source: string, at: nat, to: nat, j: nat)
    requires Branching(nodes, root, repr) && Knows(nodes, repr, assets, |assets|)
    requires at <= to <= |source|
    requires to < |source| ==> Cut(source, at, to + 1) !in nodes
    requires j < |assets| && OccursAt(assets[j].url, source, at)
    ensures at + |assets[j].url| <= to
  {
    var url := assets[j].url;
    if to < at + |url| {
      CutPrefix(source, at, at + |url|, to + 1 - at);
      PrefixesPresent(nodes, root, repr, url, to + 1 - at);
    }
  }

  ghost predicate NoUrlIs(assets: seq<Asset>, source: string, at: nat, end: nat)
    requires at <= end <= |source|
  {
    LastWith(assets, |assets|, Cut(source, at, end)).None?
  }

  /** The longest match found while the source has been followed up to here, if any. */
  ghost predicate BestUpTo(assets: seq<Asset>, source: string, at: nat, to: nat, matched: Option<(nat, nat)>)
    requires at <= to <= |source|
  {
    match matched
    case None => forall end :: at < end <= to ==> NoUrlIs(assets, source, at, end)
    case Some((i, best)) =>
      && at < best <= to
      && LastWith(assets, |assets|, Cut(source, at, best)) == Some(i)
      && forall end :: best < end <= to ==> NoUrlIs(assets, source, at, end)
  }

  lemma ExtendBest(assets: seq<Asset>, source: string, at: nat, to: nat, matched: Option<(nat, nat)>, ending: Option<nat>,
                   found: Option<(nat, nat)>)
    requires at <= to < |source| && BestUpTo(assets, source, at, to, matched)
    requires ending == LastWith(assets, |assets|, Cut(source, at, to + 1))
    requires found == if ending.Some? then Some((ending.value, to + 1)) else matched
    ensures BestUpTo(assets, source, at, to + 1, found)
  {
  }

  /** The match found beats every asset whose URL occurs at the position. */
  lemma BestBeats(assets: seq<Asset>, source: string, at: nat, to: nat, matched: Option<(nat, nat)>, j: nat)
    requires at <= to <= |source| && BestUpTo(assets, source, at, to, matched)
    requires j < |assets| && OccursAt(assets[j].url, source, at) && at + |assets[j].url| <= to
    ensures matched.Some?
    ensures |assets[j].url| < matched.value.1 - at || (|assets[j].url| == matched.value.1 - at && j <= matched.value.0)
  {
    LastWithIsLast(assets, |assets|, j);
    assert !NoUrlIs(assets, source, at, at + |assets[j].url|);
  }

  /** A probe outcome is right: nothing occurs here, or the chosen URL ends there. */
  ghost predicate Decides(assets: seq<Asset>, source: string, at: nat, matched: Option<(nat, nat)>)
  {
    match matched
    case None => NothingOccurs(assets, source, at)
    case Some((i, end)) => IsChoice(assets, source, at, i) && end == at + |assets[i].url|
  }

  lemma BestDecides(assets: seq<Asset>, nodes: map<string, TrieNode>, root: TrieNode, repr: set<TrieNode>, source: string, at: nat, to: nat,
                    matched: Option<(nat, nat)>)
    requires Branching(nodes, root, repr) && Knows(nodes, repr, assets, |assets|)
    requires at <= to <= |source|
    requires to < |source| ==> Cut(source, at, to + 1) !in nodes
    requires BestUpTo(assets, source, at, to, matched)
    ensures Decides(assets, source, at, matched)
  {
    forall j | 0 <= j < |assets| && OccursAt(assets[j].url, source, at)
      ensures matched.Some?
      ensures |assets[j].url| < matched.value.1 - at || (|assets[j].url| == matched.value.1 - at && j <= matched.value.0)
    {
      NoLongerMatch(assets, nodes, root, repr, source, at, to, j);
      BestBeats(assets, source, at, to, matched, j);
    }
  }

  /** The node stands for the source text from one position to another. */
  ghost predicate StandsAt(nodes: map<string, TrieNode>, node: TrieNode, source: string, from: nat, to: nat)
    requires from <= to <= |source|
  {
    Cut(source, from, to) in nodes && nodes[Cut(source, from, to)] == node
  }

  lemma ChildStands(nodes: map<string, TrieNode>, root: TrieNode, repr: set<TrieNode>, assets: seq<Asset>, node: TrieNode,
                    source: string, from: nat, to: nat)
    requires Branching(nodes, root, repr) && Knows(nodes, repr, assets, |assets|)
    requires from <= to < |source| && StandsAt(nodes, node, source, from, to)
    ensures source[to] in node.children <==> Cut(source, from, to + 1) in nodes
    ensures source[to] in node.children ==>
      && StandsAt(nodes, node.children[source[to]], source, from, to + 1)
      && node.children[source[to]].assetIndex == LastWith(assets, |assets|, Cut(source, from, to + 1))
  {
    assert Cut(source, from, to + 1) == Snoc(Cut(source, from, to), source[to]);
  }

  /** One step of the probe: down one character, remembering a URL end. */
  lemma ProbeStep(assets: seq<Asset>, node: TrieNode, nodes: map<string, TrieNode>, root: TrieNode, repr: set<TrieNode>,
                  source: string, cursor: nat, probe: nat, matched: Option<(nat, nat)>)
    requires Branching(nodes, root, repr) && Knows(nodes, repr, assets, |assets|)
    requires cursor <= probe < |source| && StandsAt(nodes, node, source, cursor, probe)
    requires BestUpTo(assets, source, cursor, probe, matched)
    ensures source[probe] !in node.children ==> Cut(source, cursor, probe + 1) !in nodes
    ensures source[probe] in node.children ==>
      var child := node.children[source[probe]];
      && StandsAt(nodes, child, source, cursor, probe + 1)
      && BestUpTo(assets, source, cursor, probe + 1,
                  if child.assetIndex.Some? then Some((child.assetIndex.value, probe + 1)) else matched)
  {
    ChildStands(nodes, root, repr, assets, node, source, cursor, probe);
    if source[probe] in node.children {
      var ending := node.children[source[probe]].assetIndex;
      ExtendBest(assets, source, cursor, probe, matched, ending,
                 if ending.Some? then Some((ending.value, probe + 1)) else matched);
    }
  }

  /** The inner probe: follow the source down the trie, remembering the last URL end passed. */
  method MatchAt(assets: seq<Asset>, root: TrieNode, ghost nodes: map<string, TrieNode>, ghost repr: set<TrieNode>, source: string, cursor: nat)
    returns (matched: Option<(nat, nat)>)
    requires Branching(nodes, root, repr) && Knows(nodes, repr, assets, |assets|) && cursor < |source|
    ensures Decides(assets, source, cursor, matched)
  {
    var node, probe := root, cursor;
    matched := None;
    while probe < |source|
      invariant cursor <= probe <= |source| && StandsAt(nodes, node, source, cursor, probe)
      invariant BestUpTo(assets, source, cursor, probe, matched)
    {
      ProbeStep(assets, node, nodes, root, repr, source, cursor, probe, matched);
      if source[probe] !in node.children {
        break;
      }
      node := node.children[source[probe]];
      probe := probe + 1;
      if node.assetIndex.Some? {
        matched := Some((node.assetIndex.value, probe));
      }
    }
    BestDecides(assets, nodes, root, repr, source, cursor, probe, matched);
  }

  /** The first n output parts joined. */
  function Joined(parts: seq<string>, n: nat): string
    requires n <= |parts|
  {
    if n == 0 then "" else Joined(parts, n - 1) + parts[n - 1]
  }

  lemma {:induction false} JoinedPrefix(parts: seq<string>, part: string, n: nat)
    requires n <= |parts|
    ensures Joined(parts + [part], n) == Joined(parts, n)
  {
    if n > 0 {
      JoinedPrefix(parts, part, n - 1);
    }
  }

  lemma JoinedPush(parts: seq<string>, part: string)
    ensures Joined(parts + [part], |parts| + 1) == Joined(parts, |parts|) + part
  {
    JoinedPrefix(parts, part, |parts|);
  }

  lemma JoinedPushTwo(parts: seq<string>, first: string, second: string)
    ensures Joined(parts + [first, second], |parts| + 2) == Joined(parts, |parts|) + first + second
  {
    assert parts + [first, second] == (parts + [first]) + [second];
    JoinedPush(parts, first);
    JoinedPush(parts + [first], second);
  }

  /** Exactly the assets among the first n pieces are marked. */
  ghost predicate Marked(all: seq<Piece>, n: nat, used: seq<bool>)
  {
    n <= |all| && forall i :: 0 <= i < |used| ==> (used[i] <==> Refers(all, n, i))
  }

  lemma MarkStep(all: seq<Piece>, n: nat, used: seq<bool>)
    requires n < |all| && Marked(all, n, used)
    requires all[n].Reference? ==> all[n].asset < |used|
    ensures Marked(all, n + 1, if all[n].Reference? then used[all[n].asset := true] else used)
  {
    assert forall j :: Refers(all, n + 1, j) <==> Refers(all, n, j) || all[n] == Reference(j);
  }

  /** The scan stands before piece n: what it has written and passed over is the result so far. */
  ghost predicate Written(assets: seq<Asset>, source: string, all: seq<Piece>, n: nat,
                          copiedThrough: nat, cursor: nat, written: string)
  {
    && copiedThrough <= cursor <= |source| && AheadIs(assets, source, all, n, cursor)
    && written + Cut(source, copiedThrough, cursor) == Rendered(assets, all, n)
  }

  lemma SkipOne(assets: seq<Asset>, source: string, all: seq<Piece>, n: nat,
                copiedThrough: nat, cursor: nat, written: string)
    requires Written(assets, source, all, n, copiedThrough, cursor, written) && cursor < |source|
    requires NothingOccurs(assets, source, cursor)
    ensures n < |all| && all[n] == Plain(source[cursor])
    ensures Written(assets, source, all, n + 1, copiedThrough, cursor + 1, written)
  {
    assert Choice(assets, source, cursor).None?;
    NextPiece(assets, source, all, n, cursor);
  }

  lemma ReplaceOne(assets: seq<Asset>, source: string, all: seq<Piece>, n: nat,
                   copiedThrough: nat, cursor: nat, written: string, i: nat)
    requires Written(assets, source, all, n, copiedThrough, cursor, written) && cursor < |source|
    requires IsChoice(assets, source, cursor, i)
    ensures n < |all| && all[n] == Reference(i)
    ensures var end := cursor + |assets[i].url|;
      Written(assets, source, all, n + 1, end, end, written + Cut(source, copiedThrough, cursor) + assets[i].path)
  {
    ChoiceUnique(assets, source, cursor, i);
    NextPiece(assets, source, all, n, cursor);
    var end, w := cursor + |assets[i].url|, written + Cut(source, copiedThrough, cursor) + assets[i].path;
    assert w == Rendered(assets, all, n + 1);
    assert Cut(source, end, end) == [];
    assert w + [] == w;
  }

  /** The scan stands before piece n: its output, and the marks, are the result so far. */
  ghost predicate Scanned(assets: seq<Asset>, source: string, all: seq<Piece>, n: nat, copiedThrough: nat, cursor: nat,
                          output: seq<string>, used: seq<bool>)
  {
    && Written(assets, source, all, n, copiedThrough, cursor, Joined(output, |output|))
    && |used| == |assets| && Marked(all, n, used)
  }

  lemma ScanStarts(assets: seq<Asset>, source: string, used: seq<bool>)
    requires |used| == |assets| && forall i :: 0 <= i < |used| ==> !used[i]
    ensures Scanned(assets, source, Pieces(assets, source, 0), 0, 0, 0, [], used)
  {
  }

  lemma ScanSkips(assets: seq<Asset>, source: string, all: seq<Piece>, n: nat, copiedThrough: nat, cursor: nat,
                  output: seq<string>, used: seq<bool>)
    requires Scanned(assets, source, all, n, copiedThrough, cursor, output, used) && cursor < |source|
    requires NothingOccurs(assets, source, cursor)
    ensures Scanned(assets, source, all, n + 1, copiedThrough, cursor + 1, output, used)
  {
    SkipOne(assets, source, all, n, copiedThrough, cursor, Joined(output, |output|));
    MarkStep(all, n, used);
  }

  /** A match: the text passed over and the asset's path are put out, and the asset is marked. */
  lemma ScanReplaces(assets: seq<Asset>, source: string, all: seq<Piece>, n: nat, copiedThrough: nat, cursor: nat, i: nat,
                     output: seq<string>, used: seq<bool>)
    requires Scanned(assets, source, all, n, copiedThrough, cursor, output, used) && cursor < |source|
    requires IsChoice(assets, source, cursor, i)
    ensures var end := cursor + |assets[i].url|;
      Scanned(assets, source, all, n + 1, end, end, output + [Cut(source, copiedThrough, cursor), assets[i].path], used[i := true])
  {
    ReplaceOne(assets, source, all, n, copiedThrough, cursor, Joined(output, |output|), i);
    MarkStep(all, n, used);
    JoinedPushTwo(output, Cut(source, copiedThrough, cursor), assets[i].path);
  }

  /** One turn of the scan: the probe at the cursor, and what is done with what it found. */
  method ScanOne(assets: seq<Asset>, root: TrieNode, ghost nodes: map<string, TrieNode>, ghost repr: set<TrieNode>, source: string,
                 ghost all: seq<Piece>, ghost n: nat, from: nat, at: nat, parts: seq<string>, marks: seq<bool>)
    returns (output: seq<string>, used: seq<bool>, copiedThrough: nat, cursor: nat)
    requires Branching(nodes, root, repr) && Knows(nodes, repr, assets, |assets|)
    requires Scanned(assets, source, all, n, from, at, parts, marks) && at < |source|
    ensures at < cursor <= |source| && copiedThrough <= cursor
    ensures Scanned(assets, source, all, n + 1, copiedThrough, cursor, output, used)
  {
    var matched := MatchAt(assets, root, nodes, repr, source, at);
    output, used := parts, marks;
    if matched.None? {
      ScanSkips(assets, source, all, n, from, at, parts, marks);
      copiedThrough, cursor := from, at + 1;
    } else {
      var (i, end) := matched.value;
      ScanReplaces(assets, source, all, n, from, at, i, parts, marks);
      output := output + [Cut(source, from, at), assets[i].path];
      used := used[i := true];
      copiedThrough, cursor := end, end;
    }
  }

  lemma ScanEnds(assets: seq<Asset>, source: string, all: seq<Piece>, n: nat, copiedThrough: nat,
                 output: seq<string>, used: seq<bool>)
    requires Scanned(assets, source, all, n, copiedThrough, |source|, output, used)
    ensures Joined(output + [Cut(source, copiedThrough, |source|)], |output| + 1) == Rendered(assets, all, |all|)
    ensures forall i :: 0 <= i < |assets| ==> (used[i] <==> Refers(all, |all|, i))
  {
    assert all[n..] == [];
    JoinedPush(output, Cut(source, copiedThrough, |source|));
  }

  method Scan(assets: seq<Asset>, root: TrieNode, ghost nodes: map<string, TrieNode>, ghost repr: set<TrieNode>, source: string)
    returns (markdown: string, used: seq<bool>)
    requires Branching(nodes, root, repr) && Knows(nodes, repr, assets, |assets|)
    ensures var all := Pieces(assets, source, 0);
      && markdown == Rendered(assets, all, |all|)
      && |used| == |assets|
      && forall i :: 0 <= i < |assets| ==> (used[i] <==> Refers(all, |all|, i))
  {
    used := seq(|assets|, _ => false);
    var output: seq<string> := [];
    var copiedThrough: nat, cursor: nat := 0, 0;
    ghost var all, n: nat := Pieces(assets, source, 0), 0;
    ScanStarts(assets, source, used);
    while cursor < |source|
      invariant copiedThrough <= cursor <= |source|
      invariant Scanned(assets, source, all, n, copiedThrough, cursor, output, used)
    {
      output, used, copiedThrough, cursor :=
        ScanOne(assets, root, nodes, repr, source, all, n, copiedThrough, cursor, output, used);
      n := n + 1;
    }
    ScanEnds(assets, source, all, n, copiedThrough, output, used);
    output := output + [Cut(source, copiedThrough, |source|)];
    markdown := Joined(output, |output|);
  }

  /**
   * The single pass equals leftmost-longest replacement: the source is exactly the
   * untouched characters and chosen URLs of its one leftmost-longest division, the
   * output maps each chosen URL to its path, and an asset is used exactly when chosen.
   */
  method RewriteKnownAssetUrls(source: string, assets: seq<Asset>) returns (markdown: string, used: seq<bool>)
    ensures exists pieces: seq<Piece> ::
      && LeftmostLongest(assets, source, 0, pieces)
      && Original(assets, pieces, |pieces|) == source
      && markdown == Rendered(assets, pieces, |pieces|)
      && |used| == |assets|
      && forall i :: 0 <= i < |assets| ==> (used[i] <==> Refers(pieces, |pieces|, i))
  {
    WholeDivision(assets, source);
    var root, nodes, repr := BuildTrie(assets);
    markdown, used := Scan(assets, root, nodes, repr, source);
  }

  lemma WholeDivision(assets: seq<Asset>, source: string)
    ensures var pieces := Pieces(assets, source, 0);
      LeftmostLongest(assets, source, 0, pieces) && Original(assets, pieces, |pieces|) == source
  {
    var pieces := Pieces(assets, source, 0);
    DivisionIsLeftmostLongest(assets, source, 0);
    DivisionCoversSource(assets, source, pieces, 0, 0);
    CutIsSlice(source, 0, |source|);
  }
}
