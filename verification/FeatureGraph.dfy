/**
 * The dependency part of catalog validation in config/product-variants.ts: the
 * depth-first cycle search, the dependency closure, and the checks on variants, over
 * arbitrary finite catalogs.
 */
module FeatureGraph {
  import opened Wrappers

  type Key = string

  datatype Feature = Feature(dependsOn: seq<Key>, interactions: seq<Key>)
  type Catalog = map<Key, Feature>
  datatype Variant = Variant(deployable: bool, features: map<Key, bool>)

  datatype ConfigError = BadRequirement | Cycle | BadAssignment | MissingRequirement | NoValidationVariant | InteractionUncovered

  /** Every requirement names a feature of the catalog. */
  predicate WellFormed(c: Catalog)
  {
    forall k :: k in c ==> forall r :: r in c[k].dependsOn ==> r in c
  }

  predicate NoneRequiresItself(c: Catalog)
  {
    forall k :: k in c ==> k !in c[k].dependsOn
  }

  // ---------- Paths and cycles ----------

  predicate Edge(c: Catalog, a: Key, b: Key) { a in c && b in c[a].dependsOn }

  predicate IsPath(c: Catalog, p: seq<Key>)
  {
    p != [] && forall i :: 0 <= i < |p| - 1 ==> Edge(c, p[i], p[i + 1])
  }

  ghost predicate Cyclic(c: Catalog)
  {
    exists p :: IsPath(c, p) && |p| > 1 && p[0] == p[|p| - 1]
  }

  /** Every feature listed comes after all it requires. */
  predicate Topological(c: Catalog, order: seq<Key>)
  {
    forall i :: 0 <= i < |order| ==> order[i] in c && forall r :: r in c[order[i]].dependsOn ==> r in order[..i]
  }

  function IndexIn(order: seq<Key>, k: Key): (i: nat)
    requires k in order
    ensures i < |order| && order[i] == k && k !in order[..i]
  {
    if order[0] == k then 0 else
      var i := 1 + IndexIn(order[1..], k);
      assert order[..i] == [order[0]] + order[1..][..i - 1];
      i
  }

  lemma {:induction false} PathDescends(c: Catalog, order: seq<Key>, p: seq<Key>)
    requires Topological(c, order) && IsPath(c, p) && p[0] in order && |p| > 1
    ensures p[|p| - 1] in order && IndexIn(order, p[|p| - 1]) < IndexIn(order, p[0])
    decreases |p|
  {
    if |p| > 2 {
      var q := p[1..];
      forall i | 0 <= i < |q| - 1
        ensures Edge(c, q[i], q[i + 1])
      {
        assert Edge(c, p[i + 1], p[i + 1 + 1]);
      }
      PathDescends(c, order, q);
    }
  }

  /** An order of the whole catalog that puts requirements first rules out every cycle. */
  lemma OrderedIsAcyclic(c: Catalog, order: seq<Key>)
    requires Topological(c, order) && forall k :: k in c ==> k in order
    ensures !Cyclic(c)
  {
    forall p | IsPath(c, p) && |p| > 1
      ensures p[0] != p[|p| - 1]
    {
      assert Edge(c, p[0], p[1]);
      PathDescends(c, order, p);
    }
  }

  lemma SelfLoopIsCycle(c: Catalog)
    ensures !Cyclic(c) ==> NoneRequiresItself(c)
  {
    forall k | k in c && k in c[k].dependsOn
      ensures Cyclic(c)
    {
      assert Edge(c, k, k);
      assert IsPath(c, [k, k]) && [k, k][0] == [k, k][1];
    }
  }

  lemma OrderExtends(c: Catalog, order: seq<Key>, key: Key)
    requires Topological(c, order) && key in c && forall r :: r in c[key].dependsOn ==> r in order
    ensures Topological(c, order + [key])
  {
    var next := order + [key];
    forall i | 0 <= i < |next|
      ensures next[i] in c && forall r :: r in c[next[i]].dependsOn ==> r in next[..i]
    {
      assert next[..i] == order[..i];
    }
    assert next[..|order|] == order;
  }

  // ---------- The depth-first visit ----------

  class DependencyVisitor {
    const catalog: Catalog
    var visiting: set<Key>
    var visited: set<Key>
    /** The path being visited, and the features finished, in order. */
    ghost var path: seq<Key>
    ghost var finished: seq<Key>

    ghost predicate Valid()
      reads this
    {
      && WellFormed(catalog) && visiting <= catalog.Keys
      && (forall k :: k in visiting <==> k in path)
      && (path != [] ==> IsPath(catalog, path))
      && (forall k :: k in visited <==> k in finished)
      && Topological(catalog, finished)
    }

    constructor (catalog: Catalog)
      requires WellFormed(catalog)
      ensures Valid() && this.catalog == catalog && visiting == {} && visited == {} && path == []
    {
      this.catalog := catalog;
      visiting, visited, path, finished := {}, {}, [], [];
    }

    lemma ClosesCycle(key: Key)
      requires Valid() && key in visiting && Edge(catalog, path[|path| - 1], key)
      ensures Cyclic(catalog)
    {
      var i := IndexIn(path, key);
      var p := path[i..] + [key];
      forall j | 0 <= j < |p| - 1
        ensures Edge(catalog, p[j], p[j + 1])
      {
        assert p[j] == path[i + j];
        if j + 1 < |p| - 1 {
          assert p[j + 1] == path[i + j + 1];
        }
      }
    }

    /** Visits what the key requires first; throws when the path comes back to itself. */
    method Visit(key: Key) returns (thrown: bool)
      requires Valid() && key in catalog
      requires path != [] ==> Edge(catalog, path[|path| - 1], key)
      requires key in visiting ==> path != []
      modifies this
      ensures thrown ==> Cyclic(catalog)
      ensures !thrown ==>
        && Valid() && visiting == old(visiting) && path == old(path)
        && old(visited) <= visited && key in visited
      decreases |catalog.Keys - visiting|, 0
    {
      if key in visiting {
        ClosesCycle(key);
        return true;
      }
      if key in visited {
        return false;
      }
      Smaller(catalog.Keys - (visiting + {key}), catalog.Keys - visiting, key);
      Enter(key);
      thrown := VisitRequired(key);
      if thrown {
        return;
      }
      Leave(key);
      assert path == old(path);
    }

    method Enter(key: Key)
      requires Valid() && key in catalog && key !in visiting
      requires path != [] ==> Edge(catalog, path[|path| - 1], key)
      modifies this`visiting, this`path
      ensures Valid() && visiting == old(visiting) + {key} && path == old(path) + [key]
    {
      visiting := visiting + {key};
      path := path + [key];
    }

    method Leave(key: Key)
      requires Valid() && key in catalog && path != [] && path[|path| - 1] == key && key !in path[..|path| - 1]
      requires forall r :: r in catalog[key].dependsOn ==> r in visited
      modifies this
      ensures Valid() && visiting == old(visiting) - {key} && path == old(path)[..|old(path)| - 1]
      ensures visited == old(visited) + {key}
    {
      OrderExtends(catalog, finished, key);
      visiting := visiting - {key};
      path := path[..|path| - 1];
      visited := visited + {key};
      finished := finished + [key];
    }

    /** The recursive calls of a visit, in the order in which the feature lists its requirements. */
    method VisitRequired(key: Key) returns (thrown: bool)
      requires Valid() && key in catalog && path != [] && path[|path| - 1] == key
      modifies this
      ensures thrown ==> Cyclic(catalog)
      ensures !thrown ==>
        && Valid() && visiting == old(visiting) && path == old(path) && old(visited) <= visited
        && forall r :: r in catalog[key].dependsOn ==> r in visited
      decreases |catalog.Keys - visiting|, 1
    {
      var required := catalog[key].dependsOn;
      for i := 0 to |required|
        invariant Valid() && visiting == old(visiting) && path == old(path)
        invariant old(visited) <= visited
        invariant forall j :: 0 <= j < i ==> required[j] in visited
      {
        assert Edge(catalog, key, required[i]);
        thrown := Visit(required[i]);
        if thrown {
          return;
        }
      }
      return false;
    }
  }

  lemma Smaller<T>(a: set<T>, b: set<T>, x: T)
    requires a <= b && x in b && x !in a
    ensures |a| < |b|
  {
    assert a <= b - {x};
    Included(a, b - {x});
  }

  lemma {:induction false} Included<T>(a: set<T>, b: set<T>)
    requires a <= b
    ensures |a| <= |b|
  {
    if a != {} {
      var x :| x in a;
      Included(a - {x}, b - {x});
    }
  }

  /** The search throws exactly when the requirements have a cycle. */
  method HasCycle(c: Catalog, featureKeys: seq<Key>) returns (cyclic: bool)
    requires WellFormed(c) && forall k :: k in featureKeys <==> k in c
    ensures cyclic <==> Cyclic(c)
  {
    var visitor := new DependencyVisitor(c);
    for i := 0 to |featureKeys|
      invariant visitor.Valid() && visitor.catalog == c && visitor.visiting == {} && visitor.path == []
      invariant forall j :: 0 <= j < i ==> featureKeys[j] in visitor.visited
    {
      var thrown := visitor.Visit(featureKeys[i]);
      if thrown {
        return true;
      }
    }
    OrderedIsAcyclic(c, visitor.finished);
    return false;
  }

  // ---------- The dependency closure ----------

  /** A set of features that has everything its members require. */
  predicate Closed(c: Catalog, s: set<Key>)
  {
    forall k :: k in s && k in c ==> forall r :: r in c[k].dependsOn ==> r in s
  }

  /** The smallest closed set with the key in it. */
  ghost predicate IsClosure(c: Catalog, key: Key, s: set<Key>)
  {
    && key in s && Closed(c, s)
    && forall other: set<Key> {:trigger Closed(c, other)} :: key in other && Closed(c, other) ==> s <= other
  }

  /** The features added beyond a base have all they require. */
  predicate Completed(c: Catalog, base: set<Key>, grown: set<Key>)
  {
    forall k :: k in grown && k !in base && k in c ==> forall r :: r in c[k].dependsOn ==> r in grown
  }

  /** Nothing was added beyond a base that the key does not bring. */
  ghost predicate Needed(c: Catalog, key: Key, base: set<Key>, grown: set<Key>)
  {
    forall other: set<Key> {:trigger Closed(c, other)} :: key in other && Closed(c, other) ==> grown <= base + other
  }

  /** Adds a key and all it requires to a set that may already hold some of them. */
  method AddClosure(c: Catalog, key: Key, closure: set<Key>) returns (grown: set<Key>)
    requires WellFormed(c) && key in c && closure <= c.Keys
    ensures closure + {key} <= grown <= c.Keys
    ensures Completed(c, closure, grown) && Needed(c, key, closure, grown)
    decreases |c.Keys - closure|
  {
    if key in closure {
      return closure;
    }
    Smaller(c.Keys - (closure + {key}), c.Keys - closure, key);
    grown := closure + {key};
    var required := c[key].dependsOn;
    for i := 0 to |required|
      invariant closure + {key} <= grown <= c.Keys
      invariant forall j :: 0 <= j < i ==> required[j] in grown
      invariant Completed(c, closure + {key}, grown) && Needed(c, key, closure, grown)
    {
      Included(c.Keys - grown, c.Keys - (closure + {key}));
      grown := AddClosure(c, required[i], grown);
    }
  }

  method DependencyClosure(c: Catalog, key: Key) returns (closure: set<Key>)
    requires WellFormed(c) && key in c
    ensures IsClosure(c, key, closure)
  {
    closure := AddClosure(c, key, {});
    forall other: set<Key> | key in other && Closed(c, other)
      ensures closure <= other
    {
      assert closure <= {} + other;
    }
  }

  // ---------- Variants ----------

  function Enabled(v: Variant): set<Key>
  {
    set k | k in v.features && v.features[k]
  }

  predicate VariantFits(c: Catalog, v: Variant)
  {
    v.features.Keys == c.Keys && Closed(c, Enabled(v))
  }

  /** What every closed set with the key has in it. */
  ghost function LeastClosed(c: Catalog, key: Key): set<Key>
  {
    set k | k in c && forall other: set<Key> {:trigger Closed(c, other)} :: key in other && Closed(c, other) ==> k in other
  }

  lemma LeastClosedIsClosure(c: Catalog, key: Key)
    requires WellFormed(c) && key in c
    ensures IsClosure(c, key, LeastClosed(c, key))
  {
  }

  /**
   * Checking direct requirements is checking whole closures: an assignment is accepted
   * exactly when each enabled feature brings its dependency closure.
   */
  lemma EnabledHoldsClosures(c: Catalog, v: Variant)
    requires WellFormed(c)
    ensures VariantFits(c, v) <==>
      && v.features.Keys == c.Keys
      && forall key, closure :: key in Enabled(v) && IsClosure(c, key, closure) ==> closure <= Enabled(v)
  {
    if v.features.Keys == c.Keys
       && forall key, closure :: key in Enabled(v) && IsClosure(c, key, closure) ==> closure <= Enabled(v)
    {
      forall key, r | key in Enabled(v) && r in c[key].dependsOn
        ensures r in Enabled(v)
      {
        LeastClosedIsClosure(c, key);
        assert r in LeastClosed(c, key);
      }
    }
  }

  method CheckVariant(c: Catalog, featureKeys: seq<Key>, v: Variant) returns (r: Option<ConfigError>)
    requires WellFormed(c) && forall k :: k in featureKeys <==> k in c
    ensures r.None? <==> VariantFits(c, v)
    ensures r.Some? ==> r.value == if v.features.Keys != c.Keys then BadAssignment else MissingRequirement
  {
    if v.features.Keys != c.Keys {
      return Some(BadAssignment);
    }
    for i := 0 to |featureKeys|
      invariant forall j :: 0 <= j < i && v.features[featureKeys[j]] ==>
        forall r :: r in c[featureKeys[j]].dependsOn ==> r in Enabled(v)
    {
      var key := featureKeys[i];
      if v.features[key] {
        var required := c[key].dependsOn;
        for j := 0 to |required|
          invariant forall m :: 0 <= m < j ==> required[m] in Enabled(v)
        {
          if !v.features[required[j]] {
            assert required[j] !in Enabled(v) && key in Enabled(v);
            return Some(MissingRequirement);
          }
        }
      }
    }
    assert forall k :: k in Enabled(v) ==> k in featureKeys;
    return None;
  }

  /** Some nondeployable variant enables exactly the closure of the feature. */
  ghost predicate Validated(c: Catalog, variants: map<string, Variant>, key: Key)
  {
    exists name, closure :: name in variants && IsClosure(c, key, closure)
      && !variants[name].deployable && Enabled(variants[name]) == closure
  }

  ghost predicate Interacts(variants: map<string, Variant>, left: Key, right: Key)
  {
    exists name :: name in variants && {left, right} <= Enabled(variants[name])
  }

  ghost predicate AllFit(c: Catalog, variants: map<string, Variant>)
  {
    forall name :: name in variants ==> VariantFits(c, variants[name])
  }

  ghost predicate AllValidated(c: Catalog, variants: map<string, Variant>)
  {
    forall key :: key in c ==> Validated(c, variants, key)
  }

  ghost predicate AllInteract(c: Catalog, variants: map<string, Variant>, before: (Key, Key) -> bool)
  {
    forall left, right :: left in c && right in c[left].interactions && before(left, right) ==>
      Interacts(variants, left, right)
  }

  /** What an accepted configuration guarantees, and all it takes to be accepted. */
  ghost predicate Sound(c: Catalog, variants: map<string, Variant>, before: (Key, Key) -> bool)
  {
    WellFormed(c) && !Cyclic(c) && AllFit(c, variants) && AllValidated(c, variants) && AllInteract(c, variants, before)
  }

  method FindValidation(c: Catalog, variants: map<string, Variant>, variantNames: seq<string>, key: Key) returns (found: bool)
    requires WellFormed(c) && key in c && forall n :: n in variantNames <==> n in variants
    ensures found <==> Validated(c, variants, key)
  {
    var expected := DependencyClosure(c, key);
    for i := 0 to |variantNames|
      invariant forall j :: 0 <= j < i ==>
        variants[variantNames[j]].deployable || Enabled(variants[variantNames[j]]) != expected
    {
      var v := variants[variantNames[i]];
      if !v.deployable && Enabled(v) == expected {
        return true;
      }
    }
    forall name, closure | name in variants && IsClosure(c, key, closure)
      ensures variants[name].deployable || Enabled(variants[name]) != closure
    {
      assert name in variantNames;
    }
    return false;
  }

  method FindInteraction(variants: map<string, Variant>, variantNames: seq<string>, left: Key, right: Key) returns (found: bool)
    requires forall n :: n in variantNames <==> n in variants
    ensures found <==> Interacts(variants, left, right)
  {
    for i := 0 to |variantNames|
      invariant forall j :: 0 <= j < i ==> !({left, right} <= Enabled(variants[variantNames[j]]))
    {
      if {left, right} <= Enabled(variants[variantNames[i]]) {
        return true;
      }
    }
    return false;
  }

  method RequirementsKnown(c: Catalog, featureKeys: seq<Key>) returns (known: bool)
    requires forall k :: k in featureKeys <==> k in c
    ensures known <==> WellFormed(c) && NoneRequiresItself(c)
  {
    for i := 0 to |featureKeys|
      invariant forall j :: 0 <= j < i ==> forall r :: r in c[featureKeys[j]].dependsOn ==> r in c && r != featureKeys[j]
    {
      var required := c[featureKeys[i]].dependsOn;
      for j := 0 to |required|
        invariant forall m :: 0 <= m < j ==> required[m] in c && required[m] != featureKeys[i]
      {
        if required[j] !in c || required[j] == featureKeys[i] {
          assert required[j] in c[featureKeys[i]].dependsOn;
          return false;
        }
      }
    }
    return true;
  }

  method CheckVariants(c: Catalog, featureKeys: seq<Key>, variants: map<string, Variant>, variantNames: seq<string>)
    returns (r: Option<ConfigError>)
    requires WellFormed(c) && forall k :: k in featureKeys <==> k in c
    requires forall n :: n in variantNames <==> n in variants
    ensures r.None? <==> AllFit(c, variants)
    ensures r.Some? ==> r.value == BadAssignment || r.value == MissingRequirement
  {
    for i := 0 to |variantNames|
      invariant forall j :: 0 <= j < i ==> VariantFits(c, variants[variantNames[j]])
    {
      r := CheckVariant(c, featureKeys, variants[variantNames[i]]);
      if r.Some? {
        return;
      }
    }
    return None;
  }

  method CheckValidations(c: Catalog, featureKeys: seq<Key>, variants: map<string, Variant>, variantNames: seq<string>)
    returns (validated: bool)
    requires WellFormed(c) && forall k :: k in featureKeys <==> k in c
    requires forall n :: n in variantNames <==> n in variants
    ensures validated <==> AllValidated(c, variants)
  {
    for i := 0 to |featureKeys|
      invariant forall j :: 0 <= j < i ==> Validated(c, variants, featureKeys[j])
    {
      var found := FindValidation(c, variants, variantNames, featureKeys[i]);
      if !found {
        return false;
      }
    }
    return true;
  }

  method CheckInteractions(c: Catalog, featureKeys: seq<Key>, variants: map<string, Variant>, variantNames: seq<string>,
                           before: (Key, Key) -> bool)
    returns (r: Option<ConfigError>)
    requires forall k :: k in featureKeys <==> k in c
    requires forall n :: n in variantNames <==> n in variants
    ensures r.None? <==> AllInteract(c, variants, before)
    ensures r.Some? ==> r == Some(InteractionUncovered)
  {
    for i := 0 to |featureKeys|
      invariant forall j, right :: 0 <= j < i && right in c[featureKeys[j]].interactions && before(featureKeys[j], right) ==>
        Interacts(variants, featureKeys[j], right)
    {
      var left := featureKeys[i];
      var others := c[left].interactions;
      for j := 0 to |others|
        invariant forall m :: 0 <= m < j && before(left, others[m]) ==> Interacts(variants, left, others[m])
      {
        if before(left, others[j]) {
          var found := FindInteraction(variants, variantNames, left, others[j]);
          if !found {
            return Some(InteractionUncovered);
          }
        }
      }
    }
    return None;
  }

  /** The whole dependency part of the validation: it accepts exactly the sound configurations. */
  method Validate(c: Catalog, featureKeys: seq<Key>, variants: map<string, Variant>, variantNames: seq<string>,
                  before: (Key, Key) -> bool)
    returns (r: Option<ConfigError>)
    requires forall k :: k in featureKeys <==> k in c
    requires forall n :: n in variantNames <==> n in variants
    ensures r.None? <==> Sound(c, variants, before)
    ensures r == Some(Cycle) <==> WellFormed(c) && NoneRequiresItself(c) && Cyclic(c)
  {
    SelfLoopIsCycle(c);
    var known := RequirementsKnown(c, featureKeys);
    if !known {
      return Some(BadRequirement);
    }
    var cyclic := HasCycle(c, featureKeys);
    if cyclic {
      return Some(Cycle);
    }
    r := CheckVariants(c, featureKeys, variants, variantNames);
    if r.Some? {
      return;
    }
    var validated := CheckValidations(c, featureKeys, variants, variantNames);
    if !validated {
      return Some(NoValidationVariant);
    }
    r := CheckInteractions(c, featureKeys, variants, variantNames, before);
  }
}
