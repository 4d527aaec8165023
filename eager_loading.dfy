/** JPAUtils: forcing the lazy associations of an entity to load by walking its object
    graph through its getters.

    Reflection and Hibernate's proxies are modelled by an explicit object graph: each
    object has a class, an equality key (two objects are `equals` exactly when their
    keys agree, which is how the visited `HashSet` compares them) and its public
    methods with the outcome of invoking each without arguments. */
module EagerLoading {
  import opened Wrappers

  type ObjRef = nat

  /** What reflection tells about the runtime class of an object. */
  datatype ClassInfo = ClassInfo(name: string, pkg: Option<string>, isPrimitive: bool, isArray: bool, isAnonymous: bool)

  /** Invoking a method without arguments: it returns an object or null, or it throws. */
  datatype Outcome = Returns(result: Option<ObjRef>) | Throws

  datatype MethodInfo = MethodInfo(name: string, parameterCount: nat, isPublic: bool, isStatic: bool, outcome: Outcome)

  datatype JavaObject = JavaObject(eqKey: nat, cls: ClassInfo, methods: seq<MethodInfo>)

  /** One reflective invocation: the target object and the index of the method. */
  datatype Call = Call(target: ObjRef, index: nat)

  /** The package the one-argument `initializeObject` stays inside. */
  const DefaultPackage: string := "br.gov"
  const HibernateCollectionPackage: string := "org.hibernate.collection"

  /** The value types the traversal never descends into. */
  const IgnoredTypes: set<string> := {
    "java.lang.Boolean", "java.lang.Character", "java.lang.Byte", "java.lang.Short",
    "java.lang.Integer", "java.lang.Long", "java.lang.Float", "java.lang.Double",
    "java.lang.Void", "java.lang.String", "java.lang.Class", "java.lang.Package",
    "java.time.LocalDate", "java.time.LocalDateTime"
  }

  /** A public, non-static method without parameters whose name starts with "get". */
  predicate IsGetter(m: MethodInfo) {
    |m.name| >= 3 && m.name[..3] == "get" && m.parameterCount == 0 && m.isPublic && !m.isStatic
  }

  predicate IsPrefix(prefix: string, s: string) {
    |prefix| <= |s| && s[..|prefix|] == prefix
  }

  /** The class has a package whose name begins with `inside`, character for character
      (no regard for the dots that separate package segments). */
  predicate InPackage(c: ClassInfo, inside: string) {
    c.pkg.Some? && IsPrefix(inside, c.pkg.value)
  }

  /** isClassInPackage: a class without a package, or with a package name shorter than
      the prefix, is never inside; otherwise the names are compared position by position.
      Names are compared as characters: under UTF-8, one string's bytes begin another's
      exactly when its characters do. */
  method IsClassInPackage(c: ClassInfo, inside: string) returns (b: bool)
    ensures b <==> InPackage(c, inside)
  {
    if c.pkg.None? {
      return false;
    }
    var packageName := c.pkg.value;
    if |packageName| < |inside| {
      return false;
    }
    for i := 0 to |inside|
      invariant packageName[..i] == inside[..i]
    {
      if packageName[i] != inside[i] {
        assert packageName[..|inside|][i] != inside[i];
        return false;
      }
    }
    assert inside[..|inside|] == inside;
    return true;
  }

  /** Values the traversal never descends into: the ignored types, primitives, arrays
      and anonymous classes. */
  predicate IsLeaf(c: ClassInfo) {
    c.name in IgnoredTypes || c.isPrimitive || c.isArray || c.isAnonymous
  }

  /** A child the traversal initializes and walks. */
  predicate Descends(c: ClassInfo, inside: string) {
    !IsLeaf(c) && (InPackage(c, inside) || InPackage(c, HibernateCollectionPackage))
  }

  /** The object the i-th method of `o` returns, if it returns one. */
  function Child(graph: map<ObjRef, JavaObject>, o: ObjRef, i: nat): Option<ObjRef>
    requires o in graph && i < |graph[o].methods|
  {
    var m := graph[o].methods[i];
    if m.outcome.Returns? then m.outcome.result else None
  }

  /** Every object a method returns is part of the graph. */
  predicate GraphClosed(graph: map<ObjRef, JavaObject>) {
    forall o, i :: o in graph && 0 <= i < |graph[o].methods| && Child(graph, o, i).Some? ==> Child(graph, o, i).value in graph
  }

  /** The state of one `initializeObject` run. */
  class Traversal {
    const graph: map<ObjRef, JavaObject>
    const insidePackage: string
    /** The equality keys of the objects in `seenObjects`. */
    var seen: set<nat>
    /** The objects whose getters were walked, in order. */
    ghost var visited: seq<ObjRef>
    /** For each key in `seen`, where the walked object with that key stands in `visited`. */
    ghost var position: map<nat, nat>
    /** The reflective invocations made, in order. */
    ghost var calls: seq<Call>
    /** The objects handed to Hibernate.initialize, in order. */
    ghost var initialized: seq<ObjRef>

    function Key(r: ObjRef): nat
      requires r in graph
    {
      graph[r].eqKey
    }

    function AllKeys(): set<nat> {
      set r | r in graph :: graph[r].eqKey
    }

    ghost predicate Valid()
      reads this
    {
      && GraphClosed(graph)
      && (forall i :: 0 <= i < |visited| ==> visited[i] in graph)
      && seen == position.Keys
      && (forall k :: k in position ==> position[k] < |visited| && Key(visited[position[k]]) == k)
      && seen <= AllKeys()
      && (forall i :: 0 <= i < |visited| ==> Key(visited[i]) in seen)
      && (forall i, j :: 0 <= i < j < |visited| ==> Key(visited[i]) != Key(visited[j]))
      && (forall c :: c in calls ==>
            (c.target in graph && c.index < |graph[c.target].methods| && IsGetter(graph[c.target].methods[c.index])))
      && (forall r :: r in initialized ==> r in graph && Descends(graph[r].cls, insidePackage))
    }

    /** Every getter of `o` among its first `n` methods returned, and each child it
        returned that the traversal descends into has an equal object among `s`. */
    ghost predicate ExploredUpTo(o: ObjRef, n: nat, s: set<nat>)
      requires GraphClosed(graph) && o in graph && n <= |graph[o].methods|
    {
      forall i :: 0 <= i < n && IsGetter(graph[o].methods[i]) ==>
        && graph[o].methods[i].outcome.Returns?
        && (Child(graph, o, i).Some? && Descends(graph[Child(graph, o, i).value].cls, insidePackage) ==>
              Key(Child(graph, o, i).value) in s)
    }

    ghost predicate Explored(o: ObjRef, s: set<nat>)
      requires GraphClosed(graph) && o in graph
    {
      ExploredUpTo(o, |graph[o].methods|, s)
    }

    constructor (graph: map<ObjRef, JavaObject>, insidePackage: string)
      requires GraphClosed(graph)
      ensures Valid()
      ensures this.graph == graph && this.insidePackage == insidePackage
      ensures seen == {} && visited == [] && calls == [] && initialized == []
    {
      this.graph := graph;
      this.insidePackage := insidePackage;
      seen := {};
      position := map[];
      visited := [];
      calls := [];
      initialized := [];
    }

    /** The recursive `initializeObject`: `o` joins the visited set, then each getter of
        `o` is invoked in order; a child that is not null, not equal to a visited object,
        not a leaf, and inside the package is initialized and walked in turn. A throwing
        getter aborts the whole traversal with a RuntimeException. */
    method Visit(o: ObjRef) returns (r: Result<()>, ghost added: seq<ObjRef>)
      requires Valid() && o in graph && Key(o) !in seen
      modifies this
      ensures Valid()
      ensures old(seen) + {Key(o)} <= seen
      ensures initialized == old(initialized) + added && visited == old(visited) + [o] + added
      ensures r.Ok? ==> forall i :: |old(visited)| <= i < |visited| ==> Explored(visited[i], seen)
      ensures r.Err? ==> r.error == Runtime
      decreases AllKeys() - seen, 0
    {
      Enter(o);
      assert Key(o) in old(AllKeys() - seen) && Key(o) !in AllKeys() - seen;
      r, added := WalkMethods(o);
      AppendAssoc(old(visited), [o], added);
      assert visited[|old(visited)|] == o;
    }

    /** `seenObjects.add(o)`: `o` joins the visited objects. */
    method Enter(o: ObjRef)
      requires Valid() && o in graph && Key(o) !in seen
      modifies this
      ensures Valid()
      ensures seen == old(seen) + {Key(o)} && visited == old(visited) + [o]
      ensures initialized == old(initialized)
    {
      assert Key(o) in AllKeys();
      seen := seen + {Key(o)};
      position := position[Key(o) := |visited|];
      visited := visited + [o];
    }

    /** The loop over the methods of `o`, which has just joined the visited objects. */
    method WalkMethods(o: ObjRef) returns (r: Result<()>, ghost added: seq<ObjRef>)
      requires Valid() && o in graph && Key(o) in seen
      modifies this
      ensures Valid()
      ensures old(seen) <= seen
      ensures initialized == old(initialized) + added && visited == old(visited) + added
      ensures r.Ok? ==> Explored(o, seen)
      ensures r.Ok? ==> forall i :: |old(visited)| <= i < |visited| ==> Explored(visited[i], seen)
      ensures r.Err? ==> r.error == Runtime
      decreases AllKeys() - seen, 4
    {
      added := [];
      AppendEmpty(initialized);
      AppendEmpty(visited);
      for i := 0 to |graph[o].methods|
        invariant Valid()
        invariant old(seen) <= seen
        invariant initialized == old(initialized) + added && visited == old(visited) + added
        invariant ExploredUpTo(o, i, seen)
        invariant forall k :: |old(visited)| <= k < |visited| ==> Explored(visited[k], seen)
      {
        var step, stepAdded := WalkStep(o, i, |old(visited)|);
        AppendAssoc(old(initialized), added, stepAdded);
        AppendAssoc(old(visited), added, stepAdded);
        added := added + stepAdded;
        if step.Err? {
          return step, added;
        }
      }
      r := Ok(());
    }

    /** The method at index `i` of `o` is visited; what was explored stays explored. */
    method WalkStep(o: ObjRef, i: nat, ghost start: nat) returns (r: Result<()>, ghost added: seq<ObjRef>)
      requires Valid() && o in graph && i < |graph[o].methods| && Key(o) in seen
      requires start <= |visited| && ExploredUpTo(o, i, seen)
      requires forall k :: start <= k < |visited| ==> Explored(visited[k], seen)
      modifies this
      ensures Valid()
      ensures old(seen) <= seen
      ensures initialized == old(initialized) + added && visited == old(visited) + added
      ensures r.Ok? ==> ExploredUpTo(o, i + 1, seen)
      ensures r.Ok? ==> forall k :: start <= k < |visited| ==> Explored(visited[k], seen)
      ensures r.Err? ==> r.error == Runtime
      decreases AllKeys() - seen, 3
    {
      ghost var seenBefore := seen;
      ghost var visitedBefore := visited;
      r, added := VisitMethod(o, i);
      if r.Ok? {
        ExploredGrows(o, i, seenBefore, seen);
        ExploredExtend(o, i, seen);
        ExploredAllGrow(visited, start, |visitedBefore|, seenBefore, seen);
      }
    }

    /** One iteration of the walk over the methods of `o`: a getter is invoked; its
        result is walked when it is worth descending into and not equal to a visited object. */
    method VisitMethod(o: ObjRef, i: nat) returns (r: Result<()>, ghost added: seq<ObjRef>)
      requires Valid() && o in graph && i < |graph[o].methods| && Key(o) in seen
      modifies this
      ensures Valid()
      ensures old(seen) <= seen
      ensures initialized == old(initialized) + added && visited == old(visited) + added
      ensures r.Ok? && IsGetter(graph[o].methods[i]) ==> graph[o].methods[i].outcome.Returns?
      ensures r.Ok? && IsGetter(graph[o].methods[i]) && Child(graph, o, i).Some? ==>
        (Descends(graph[Child(graph, o, i).value].cls, insidePackage) ==> Key(Child(graph, o, i).value) in seen)
      ensures r.Ok? ==> forall k :: |old(visited)| <= k < |visited| ==> Explored(visited[k], seen)
      ensures r.Err? ==> r.error == Runtime
      decreases AllKeys() - seen, 2
    {
      added := [];
      AppendEmpty(initialized);
      AppendEmpty(visited);
      var m := graph[o].methods[i];
      if !IsGetter(m) {
        return Ok(()), added;
      }
      RecordCall(o, i);
      if m.outcome.Throws? {
        return Err(Runtime), added;
      }
      if m.outcome.result.None? {
        return Ok(()), added;
      }
      var child := m.outcome.result.value;
      assert Child(graph, o, i) == Some(child);
      if Key(child) in seen {
        return Ok(()), added;
      }
      var inside := IsClassInPackage(graph[child].cls, insidePackage);
      var inCollections := IsClassInPackage(graph[child].cls, HibernateCollectionPackage);
      if IsLeaf(graph[child].cls) || !(inside || inCollections) {
        return Ok(()), added;
      }
      r, added := VisitChild(child);
    }

    /** `m.invoke(o)`: the invocation of a getter is recorded. */
    method RecordCall(o: ObjRef, i: nat)
      requires Valid() && o in graph && i < |graph[o].methods| && IsGetter(graph[o].methods[i])
      modifies this
      ensures Valid() && calls == old(calls) + [Call(o, i)]
      ensures seen == old(seen) && visited == old(visited) && initialized == old(initialized)
    {
      calls := calls + [Call(o, i)];
    }

    /** A child worth descending into: Hibernate.initialize, then the walk from it. */
    method VisitChild(child: ObjRef) returns (r: Result<()>, ghost added: seq<ObjRef>)
      requires Valid() && child in graph && Key(child) !in seen && Descends(graph[child].cls, insidePackage)
      modifies this
      ensures Valid()
      ensures old(seen) + {Key(child)} <= seen
      ensures initialized == old(initialized) + added && visited == old(visited) + added
      ensures r.Ok? ==> forall i :: |old(visited)| <= i < |visited| ==> Explored(visited[i], seen)
      ensures r.Err? ==> r.error == Runtime
      decreases AllKeys() - seen, 1
    {
      initialized := initialized + [child];
      ghost var subAdded;
      r, subAdded := Visit(child);
      AppendAssoc(old(initialized), [child], subAdded);
      AppendAssoc(old(visited), [child], subAdded);
      added := [child] + subAdded;
    }

    /** The exploration of the first `i` methods extends to the next one once it is handled. */
    lemma ExploredExtend(o: ObjRef, i: nat, s: set<nat>)
      requires GraphClosed(graph) && o in graph && i < |graph[o].methods|
      requires ExploredUpTo(o, i, s)
      requires IsGetter(graph[o].methods[i]) ==> graph[o].methods[i].outcome.Returns?
      requires IsGetter(graph[o].methods[i]) && Child(graph, o, i).Some? ==>
        (Descends(graph[Child(graph, o, i).value].cls, insidePackage) ==> Key(Child(graph, o, i).value) in s)
      ensures ExploredUpTo(o, i + 1, s)
    {
    }

    /** The objects of `vs` from `lo` to `hi` stay explored as the visited set grows. */
    lemma ExploredAllGrow(vs: seq<ObjRef>, lo: nat, hi: nat, s1: set<nat>, s2: set<nat>)
      requires GraphClosed(graph) && hi <= |vs| && s1 <= s2
      requires forall k :: lo <= k < hi ==> vs[k] in graph && Explored(vs[k], s1)
      ensures forall k :: lo <= k < hi ==> Explored(vs[k], s2)
    {
      forall k | lo <= k < hi
        ensures Explored(vs[k], s2)
      {
        ExploredGrows(vs[k], |graph[vs[k]].methods|, s1, s2);
      }
    }

    /** Exploring stays true as the visited set grows. */
    lemma ExploredGrows(o: ObjRef, n: nat, s1: set<nat>, s2: set<nat>)
      requires GraphClosed(graph) && o in graph && n <= |graph[o].methods|
      requires ExploredUpTo(o, n, s1) && s1 <= s2
      ensures ExploredUpTo(o, n, s2)
    {
    }
  }

  /** initializeObject(o, insidePackageName): a fresh visited set, then the walk from `o`.
      Each object is walked at most once (no two walked objects are equal), the root
      first and then only objects handed to Hibernate.initialize, all of which are
      inside the package; on success every walked object's getters all returned and
      every child worth descending into equals a walked object. */
  method InitializeObjectIn(graph: map<ObjRef, JavaObject>, o: ObjRef, insidePackageName: string)
    returns (t: Traversal, r: Result<()>)
    requires GraphClosed(graph) && o in graph
    ensures t.Valid() && t.graph == graph && t.insidePackage == insidePackageName
    ensures t.visited == [o] + t.initialized
    ensures forall i, j :: 0 <= i < j < |t.visited| ==> t.Key(t.visited[i]) != t.Key(t.visited[j])
    ensures forall x :: x in t.initialized ==> Descends(graph[x].cls, insidePackageName)
    ensures forall c :: c in t.calls ==> IsGetter(graph[c.target].methods[c.index])
    ensures r.Ok? ==> forall i :: 0 <= i < |t.visited| ==> t.Explored(t.visited[i], t.seen)
    ensures r.Err? ==> r.error == Runtime
  {
    t := new Traversal(graph, insidePackageName);
    ghost var added;
    r, added := t.Visit(o);
  }

  /** initializeObject(o): the walk restricted to the default package. */
  method InitializeObject(graph: map<ObjRef, JavaObject>, o: ObjRef) returns (t: Traversal, r: Result<()>)
    requires GraphClosed(graph) && o in graph
    ensures t.Valid() && t.graph == graph && t.insidePackage == DefaultPackage
    ensures t.visited == [o] + t.initialized
    ensures r.Err? ==> r.error == Runtime
  {
    t, r := InitializeObjectIn(graph, o, DefaultPackage);
  }

  lemma AppendAssoc<T>(a: seq<T>, b: seq<T>, c: seq<T>)
    ensures (a + b) + c == a + (b + c)
  {
  }

  lemma AppendEmpty<T>(a: seq<T>)
    ensures a + [] == a
  {
  }

  /** A class without a package is never inside any package. */
  lemma NoPackageNeverInside(c: ClassInfo, inside: string)
    requires c.pkg.None?
    ensures !InPackage(c, inside)
  {
  }

  /** The package test is not aware of package segments: every package whose name extends
      the text counts as inside, whatever follows it ("br.govx" is inside "br.gov"). */
  lemma PrefixIgnoresSegments(c: ClassInfo, inside: string, rest: string)
    requires c.pkg == Some(inside + rest)
    ensures InPackage(c, inside)
    ensures InPackage(ClassInfo("br.govx.Thing", Some("br.govx"), false, false, false), DefaultPackage)
  {
    assert (inside + rest)[..|inside|] == inside;
    assert "br.govx"[..6] == "br.gov";
  }
}
